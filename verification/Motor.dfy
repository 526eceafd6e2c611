/**
 The motor driver (client/main/motor/modules/motor.cpp) and the ramp of the motor task
 (client/main/motor/tasks/motor_task.cpp), with the pins and the PWM output as plain fields and the ramp's
 floating-point arithmetic over real numbers.
 */
module Motor {
  const MAX_DUTY: nat := 1023

  datatype Direction = NoDirection | Clockwise | CounterClockwise

  datatype Command = Command(startingDuty: nat, targetDuty: nat, rampTimeMs: nat, isActive: bool)

  /** `motor_control_t::stop`. */
  const STOP := Command(0, 0, 0, false)

  class MotorDriver {
    var isActive: bool
    var duty: nat
    var direction: Direction
    var standby: bool
    var ainA: bool
    var ainB: bool
    var pwm: nat
    /** Every duty that was ever set, oldest first. */
    ghost var applied: seq<nat>

    /** The outputs agree with what the driver remembers, and the duty fits ten bits. */
    ghost predicate Valid()
      reads this
    {
      pwm == duty <= MAX_DUTY && standby == isActive
    }

    /** Construction and `init`; the direction pins are first driven by `SetDirection`. */
    constructor ()
      ensures Valid() && isActive && duty == 0 && applied == []
    {
      isActive, duty, direction := true, 0, Clockwise;
      standby, ainA, ainB, pwm, applied := true, false, false, 0, [];
    }

    method SetActiveState(active: bool)
      modifies this
      ensures isActive == standby == active && duty == old(duty) && applied == old(applied)
      ensures pwm == if active then old(pwm) else duty
      ensures if active then direction == old(direction) && ainA == old(ainA) && ainB == old(ainB)
              else direction == NoDirection && !ainA && !ainB
    {
      isActive := active;
      standby := active;
      if !active {
        SetDirection(NoDirection);
        pwm := duty;
      }
    }

    method SetDirection(d: Direction)
      modifies this`direction, this`ainA, this`ainB
      ensures direction == d && ainA == (d == Clockwise) && ainB == (d == CounterClockwise)
    {
      ainA, ainB := d == Clockwise, d == CounterClockwise;
      direction := d;
    }

    /** A duty is ignored while the motor is inactive, and always when it exceeds the maximum. */
    method SetDuty(d: nat)
      requires Valid()
      modifies this`duty, this`pwm, this`applied
      ensures Valid()
      ensures if isActive && d <= MAX_DUTY then duty == d && applied == old(applied) + [d]
              else duty == old(duty) && applied == old(applied)
    {
      if !isActive || d > MAX_DUTY {
        return;
      }
      duty := d;
      pwm := duty;
      applied := applied + [d];
    }
  }

  // ----- the ramp -----

  function Ease(x: real): real { x * x * x }

  function Lerp(a: real, b: real, t: real): real { a + (b - a) * t }

  /** `std::round` of a number that is not negative. */
  function Round(x: real): int { (x + 0.5).Floor }

  /** The duty asked for when `ms` of the ramp time have passed. */
  function RampDuty(c: Command, ms: nat): int
    requires ms < c.rampTimeMs
  {
    Round(Lerp(c.startingDuty as real, c.targetDuty as real, Ease(ms as real / c.rampTimeMs as real)))
  }

  /** The duty `x`, and later `y`, on the way from the start to the target. */
  predicate Toward(c: Command, x: int, y: int) {
    if c.startingDuty <= c.targetDuty then c.startingDuty <= x <= y <= c.targetDuty
    else c.startingDuty >= x >= y >= c.targetDuty
  }

  lemma Scaled(a: real, b: real, factor: real)
    requires a <= b && 0.0 <= factor
    ensures a * factor <= b * factor
  {
  }

  lemma ScaledLeft(factor: real, a: real, b: real)
    requires a <= b && 0.0 <= factor
    ensures factor * a <= factor * b
  {
  }

  lemma ProductIsMonotone(a: real, b: real, c: real, d: real)
    requires 0.0 <= a <= b && 0.0 <= c <= d
    ensures 0.0 <= a * c <= b * d
  {
    Scaled(a, b, c);
    ScaledLeft(b, c, d);
  }

  lemma EaseIsMonotone(x: real, y: real)
    requires 0.0 <= x <= y <= 1.0
    ensures 0.0 <= Ease(x) <= Ease(y) <= 1.0
  {
    ProductIsMonotone(x, y, x, y);
    ProductIsMonotone(x * x, y * y, x, y);
    ProductIsMonotone(y, 1.0, y, 1.0);
    ProductIsMonotone(y * y, 1.0, y, 1.0);
  }

  lemma LerpIsMonotone(a: real, b: real, s: real, t: real)
    requires 0.0 <= s <= t <= 1.0
    ensures a <= b ==> a <= Lerp(a, b, s) <= Lerp(a, b, t) <= b
    ensures a >= b ==> a >= Lerp(a, b, s) >= Lerp(a, b, t) >= b
  {
    var d := b - a;
    if d >= 0.0 {
      assert 0.0 <= d * s <= d * t <= d * 1.0;
    } else {
      assert 0.0 <= -d * s <= -d * t <= -d * 1.0;
    }
  }

  lemma RoundIsMonotone(x: real, y: real)
    requires x <= y
    ensures Round(x) <= Round(y)
  {
  }

  lemma RoundKeepsIntegers(n: int)
    ensures Round(n as real) == n
  {
  }

  lemma FractionIsOrdered(a: nat, b: nat, n: nat)
    requires a <= b < n
    ensures 0.0 <= a as real / n as real <= b as real / n as real <= 1.0
  {
  }

  /** Later readings ask for duties nearer the target, and never outside the range. */
  lemma RampIsMonotone(c: Command, early: nat, late: nat)
    requires early <= late < c.rampTimeMs
    ensures Toward(c, RampDuty(c, early), RampDuty(c, late)) && RampDuty(c, late) >= 0
  {
    var a, b := c.startingDuty as real, c.targetDuty as real;
    var x, y := early as real / c.rampTimeMs as real, late as real / c.rampTimeMs as real;
    FractionIsOrdered(early, late, c.rampTimeMs);
    EaseIsMonotone(x, y);
    LerpIsMonotone(a, b, Ease(x), Ease(y));
    var u, v := Lerp(a, b, Ease(x)), Lerp(a, b, Ease(y));
    RoundKeepsIntegers(c.startingDuty);
    RoundKeepsIntegers(c.targetDuty);
    if a <= b {
      RoundIsMonotone(a, u);
      RoundIsMonotone(u, v);
      RoundIsMonotone(v, b);
    } else {
      RoundIsMonotone(u, a);
      RoundIsMonotone(v, u);
      RoundIsMonotone(b, v);
    }
  }

  // ----- the duty asked for, in integers -----

  function Cube(n: int): int { n * n * n }

  /** The integer nearest to `start + (target - start) * ms^3 / ramp^3`, the larger one of two. */
  predicate NearestDuty(c: Command, ms: nat, duty: int) {
    var whole := Cube(c.rampTimeMs);
    var exact := c.startingDuty * whole + (c.targetDuty - c.startingDuty) * Cube(ms);
    2 * exact - whole < 2 * (duty * whole) <= 2 * exact + whole
  }

  lemma CubeIsReal(n: int)
    ensures Cube(n) as real == Ease(n as real)
  {
    assert (n * n) as real == n as real * n as real;
    assert (n * n * n) as real == (n * n) as real * n as real;
  }

  lemma CubeIsPositive(n: int)
    requires n > 0
    ensures Cube(n) > 0
  {
  }

  lemma ProductIsReal(a: int, b: int)
    ensures (a * b) as real == a as real * b as real
  {
  }

  lemma EaseOfFraction(x: real, whole: real)
    requires whole > 0.0
    ensures Ease(x / whole) * Ease(whole) == Ease(x)
  {
    var q := x / whole;
    assert q * whole == x;
    assert Ease(q) * Ease(whole) == (q * whole) * (q * whole) * (q * whole);
  }

  lemma LerpScaled(a: real, b: real, t: real, whole: real, part: real)
    requires t * whole == part
    ensures Lerp(a, b, t) * whole == a * whole + (b - a) * part
  {
    assert (b - a) * t * whole == (b - a) * (t * whole);
  }

  lemma ScaledIsNear(x: real, rounded: real, factor: real, exact: real, scaled: real)
    requires x - 0.5 < rounded <= x + 0.5 && factor > 0.0 && exact == x * factor && scaled == rounded * factor
    ensures exact - 0.5 * factor < scaled <= exact + 0.5 * factor
  {
    var up, down := rounded + 0.5 - x, x + 0.5 - rounded;
    assert up * factor > 0.0 && down * factor >= 0.0;
    assert up * factor == scaled + 0.5 * factor - exact && down * factor == exact + 0.5 * factor - scaled;
  }

  lemma NearInIntegers(exact: int, whole: int, scaled: int)
    requires exact as real - 0.5 * whole as real < scaled as real <= exact as real + 0.5 * whole as real
    ensures 2 * exact - whole < 2 * scaled <= 2 * exact + whole
  {
    assert (2 * exact - whole) as real < (2 * scaled) as real <= (2 * exact + whole) as real;
  }

  lemma RoundIsNearest(x: real, rounded: int, exact: int, whole: int, scaled: int)
    requires rounded == Round(x) && whole > 0 && exact as real == x * whole as real && scaled == rounded * whole
    ensures 2 * exact - whole < 2 * scaled <= 2 * exact + whole
  {
    ProductIsReal(rounded, whole);
    ScaledIsNear(x, rounded as real, whole as real, exact as real, scaled as real);
    NearInIntegers(exact, whole, scaled);
  }

  lemma ExactIsReal(start: nat, target: nat, ms: nat, rampTimeMs: nat)
    requires rampTimeMs > 0
    ensures (start * Cube(rampTimeMs) + (target - start) * Cube(ms)) as real ==
            Lerp(start as real, target as real, Ease(ms as real / rampTimeMs as real)) * Cube(rampTimeMs) as real
  {
    var whole, part := Cube(rampTimeMs), Cube(ms);
    CubeIsReal(rampTimeMs);
    CubeIsReal(ms);
    EaseOfFraction(ms as real, rampTimeMs as real);
    LerpScaled(start as real, target as real, Ease(ms as real / rampTimeMs as real), whole as real, part as real);
    ProductIsReal(start, whole);
    ProductIsReal(target - start, part);
  }

  /** The ramp is the cube of the time that has passed, rounded. */
  lemma RampIsNearest(c: Command, ms: nat)
    requires ms < c.rampTimeMs
    ensures NearestDuty(c, ms, RampDuty(c, ms))
  {
    var x := Lerp(c.startingDuty as real, c.targetDuty as real, Ease(ms as real / c.rampTimeMs as real));
    var whole, duty := Cube(c.rampTimeMs), RampDuty(c, ms);
    CubeIsPositive(c.rampTimeMs);
    ExactIsReal(c.startingDuty, c.targetDuty, ms, c.rampTimeMs);
    RoundIsNearest(x, duty, c.startingDuty * whole + (c.targetDuty - c.startingDuty) * Cube(ms), whole, duty * whole);
  }

  const TICKS: nat := 0x1_0000_0000

  /** The difference of two readings of the 32-bit tick counter is the time between them, also across its wrap. */
  lemma ElapsedAcrossWrap(start: nat, now: nat)
    requires start <= now < start + TICKS
    ensures (now % TICKS - start % TICKS) % TICKS == now - start
  {
    var q, r := start / TICKS, start % TICKS;
    assert start == q * TICKS + r;
    if r + (now - start) < TICKS {
      assert now % TICKS == r + (now - start) by { assert now == q * TICKS + (r + (now - start)); }
    } else {
      var past := r + (now - start) - TICKS;
      assert now % TICKS == past by { assert now == (q + 1) * TICKS + past; }
    }
  }

  /** What `adjust_motor` computes from two readings of the 32-bit counter, in 32-bit arithmetic. */
  function ElapsedMs(now: nat, start: nat, period: nat): nat {
    (now % TICKS - start % TICKS) % TICKS * period % TICKS
  }

  /** A clock that never runs backwards, is read before 2^32 ms have passed, moves, and reaches the end of the ramp. */
  ghost predicate Ticking(clock: seq<nat>, period: nat, rampTimeMs: nat) {
    && |clock| >= 2 && period > 0 && clock[|clock| - 1] > clock[0]
    && (forall i, j :: 0 <= i <= j < |clock| ==> clock[i] <= clock[j])
    && (clock[|clock| - 1] - clock[0]) * period < TICKS
    && (clock[|clock| - 1] - clock[0]) * period >= rampTimeMs
  }

  lemma ProductIsOrdered(a: nat, b: nat, n: nat)
    requires a <= b && n > 0
    ensures a <= a * n <= b * n
  {
  }

  /** The milliseconds since the first reading, as the code computes them, are the true ones and never decrease. */
  lemma ElapsedIsTrue(clock: seq<nat>, period: nat, rampTimeMs: nat, i: nat)
    requires Ticking(clock, period, rampTimeMs) && i < |clock|
    ensures ElapsedMs(clock[i], clock[0], period) == (clock[i] - clock[0]) * period < TICKS
  {
    var d, last := clock[i] - clock[0], clock[|clock| - 1] - clock[0];
    ProductIsOrdered(d, last, period);
    ElapsedAcrossWrap(clock[0], clock[i]);
    BelowTheWrap(d * period);
  }

  lemma BelowTheWrap(n: nat)
    requires n < TICKS
    ensures n % TICKS == n
  {
  }

  lemma ElapsedNeverDecreases(clock: seq<nat>, period: nat, rampTimeMs: nat, i: nat, j: nat)
    requires Ticking(clock, period, rampTimeMs) && i <= j < |clock|
    ensures ElapsedMs(clock[i], clock[0], period) <= ElapsedMs(clock[j], clock[0], period)
    ensures ElapsedMs(clock[|clock| - 1], clock[0], period) >= rampTimeMs
    ensures ElapsedMs(clock[i], clock[0], period) == 0 <==> clock[i] == clock[0]
  {
    ElapsedIsTrue(clock, period, rampTimeMs, i);
    ElapsedIsTrue(clock, period, rampTimeMs, j);
    ElapsedIsTrue(clock, period, rampTimeMs, |clock| - 1);
    ProductIsOrdered(clock[i] - clock[0], clock[j] - clock[0], period);
  }

  /** The duties asked for: monotone from the start toward the target, in range throughout, the target last. */
  ghost predicate Ramped(c: Command, duties: seq<nat>) {
    && duties != [] && duties[|duties| - 1] == c.targetDuty
    && forall i, j :: 0 <= i <= j < |duties| ==> Toward(c, duties[i], duties[j])
  }

  /** The duties asked for at the times `ms`, all within the ramp. */
  ghost predicate OnRamp(c: Command, ms: seq<nat>, duties: seq<nat>) {
    && |ms| == |duties|
    && (forall k :: 0 <= k < |ms| ==> ms[k] < c.rampTimeMs && duties[k] == RampDuty(c, ms[k]))
    && (forall j, k :: 0 <= j <= k < |ms| ==> ms[j] <= ms[k])
  }

  lemma OneMoreOnRamp(c: Command, ms: seq<nat>, duties: seq<nat>, now: nat, duty: nat)
    requires OnRamp(c, ms, duties) && now < c.rampTimeMs && duty == RampDuty(c, now)
    requires ms != [] ==> ms[|ms| - 1] <= now
    ensures OnRamp(c, ms + [now], duties + [duty])
  {
  }

  lemma OnRampIsRamped(c: Command, ms: seq<nat>, duties: seq<nat>)
    requires OnRamp(c, ms, duties)
    ensures Ramped(c, duties + [c.targetDuty])
  {
    var all := duties + [c.targetDuty];
    forall i, j | 0 <= i <= j < |all| ensures Toward(c, all[i], all[j]) {
      if i < |duties| {
        RampIsMonotone(c, ms[i], if j < |duties| then ms[j] else ms[i]);
      }
    }
  }

  /** The code's test for the end of the ramp. Without a ramp time 0 / 0 is no number, and fails every comparison. */
  predicate RampIsOver(ms: nat, rampTimeMs: nat) {
    if rampTimeMs == 0 then ms > 0 else ms as real / rampTimeMs as real >= 1.0
  }

  lemma RampIsOverIff(ms: nat, rampTimeMs: nat)
    ensures RampIsOver(ms, rampTimeMs) <==> ms >= rampTimeMs && ms > 0
  {
  }

  /** What is asked for on the way of a command without a ramp time: nothing that the command says. */
  ghost predicate Unramped(c: Command, duties: seq<nat>, nan: nat) {
    && duties != [] && duties[|duties| - 1] == c.targetDuty
    && forall i :: 0 <= i < |duties| - 1 ==> duties[i] == nan
  }

  /** The milliseconds from the first reading of the clock to reading `k`. */
  function MsAt(clock: seq<nat>, period: nat, k: nat): int
    requires k < |clock|
  {
    (clock[k] - clock[0]) * period
  }

  /** There is one duty for every reading behind the first until the ramp time has passed, and then the target. */
  ghost predicate OnTime(c: Command, clock: seq<nat>, period: nat, duties: seq<nat>) {
    && 1 <= |duties| < |clock|
    && MsAt(clock, period, |duties|) > 0 && MsAt(clock, period, |duties|) >= c.rampTimeMs
    && forall k :: 1 <= k < |duties| ==> MsAt(clock, period, k) < c.rampTimeMs || MsAt(clock, period, k) == 0
  }

  /** The duties on the way are the ones for the times at which they are asked for. */
  ghost predicate OnCurve(c: Command, clock: seq<nat>, period: nat, duties: seq<nat>)
    requires |duties| <= |clock|
  {
    forall k :: 1 <= k < |duties| ==>
      MsAt(clock, period, k) >= 0 && NearestDuty(c, MsAt(clock, period, k), duties[k - 1])
  }

  /** What the loop of `adjust_motor` has read so far. */
  ghost predicate Read(c: Command, clock: seq<nat>, period: nat, ms: seq<nat>) {
    && |ms| < |clock|
    && forall k :: 0 <= k < |ms| ==>
         ms[k] == ElapsedMs(clock[k + 1], clock[0], period) && !RampIsOver(ms[k], c.rampTimeMs)
  }

  lemma OneMoreRead(c: Command, clock: seq<nat>, period: nat, ms: seq<nat>, now: nat)
    requires Read(c, clock, period, ms) && |ms| + 1 < |clock|
    requires now == ElapsedMs(clock[|ms| + 1], clock[0], period) && !RampIsOver(now, c.rampTimeMs)
    ensures Read(c, clock, period, ms + [now])
  {
  }

  lemma ReadingsAreOnTime(c: Command, clock: seq<nat>, period: nat, ms: seq<nat>, duties: seq<nat>)
    requires Ticking(clock, period, c.rampTimeMs) && Read(c, clock, period, ms) && |duties| == |ms| + 1 < |clock|
    requires RampIsOver(ElapsedMs(clock[|duties|], clock[0], period), c.rampTimeMs)
    ensures OnTime(c, clock, period, duties)
  {
    ElapsedIsTrue(clock, period, c.rampTimeMs, |duties|);
    RampIsOverIff(ElapsedMs(clock[|duties|], clock[0], period), c.rampTimeMs);
    forall k | 1 <= k < |duties| ensures MsAt(clock, period, k) < c.rampTimeMs || MsAt(clock, period, k) == 0 {
      ElapsedIsTrue(clock, period, c.rampTimeMs, k);
      assert ms[k - 1] == ElapsedMs(clock[k - 1 + 1], clock[0], period);
      RampIsOverIff(ms[k - 1], c.rampTimeMs);
    }
  }

  lemma ReadingsAreOnCurve(c: Command, clock: seq<nat>, period: nat, ms: seq<nat>, duties: seq<nat>)
    requires Ticking(clock, period, c.rampTimeMs) && Read(c, clock, period, ms) && OnRamp(c, ms, duties)
    ensures OnCurve(c, clock, period, duties + [c.targetDuty])
  {
    var all := duties + [c.targetDuty];
    forall k | 1 <= k < |all|
      ensures MsAt(clock, period, k) >= 0 && NearestDuty(c, MsAt(clock, period, k), all[k - 1])
    {
      ElapsedIsTrue(clock, period, c.rampTimeMs, k);
      assert ms[k - 1] == ElapsedMs(clock[k - 1 + 1], clock[0], period);
      RampIsNearest(c, ms[k - 1]);
    }
  }

  /**
   `adjust_motor`. `clock` are the unbounded times at which the tick counter is read; the code sees them modulo 2^32.
   `nan` is what converting a not-a-number to a duty gives, which C++ leaves open: it is asked for exactly when there is
   no ramp time and the tick has not moved. On an active motor the duty ends at the target exactly when the target is a
   duty the motor takes.
   */
  method Adjust(motor: MotorDriver, c: Command, clock: seq<nat>, period: nat, nan: nat) returns (duties: seq<nat>)
    requires motor.Valid() && motor.isActive && Ticking(clock, period, c.rampTimeMs)
    modifies motor`duty, motor`pwm, motor`applied
    ensures motor.Valid() && motor.isActive
    ensures OnTime(c, clock, period, duties)
    ensures if c.rampTimeMs > 0 then Ramped(c, duties) && OnCurve(c, clock, period, duties)
            else Unramped(c, duties, nan)
    ensures motor.duty == c.targetDuty <==> c.targetDuty <= MAX_DUTY
    ensures c.rampTimeMs > 0 && c.startingDuty <= MAX_DUTY && c.targetDuty <= MAX_DUTY ==>
              motor.applied == old(motor.applied) + duties
  {
    duties := [];
    ghost var ms: seq<nat> := [];
    ghost var tame := c.rampTimeMs > 0 && c.startingDuty <= MAX_DUTY && c.targetDuty <= MAX_DUTY;
    var i: nat := 1;
    while true
      invariant 1 <= i < |clock| && i == |duties| + 1 == |ms| + 1 && Read(c, clock, period, ms)
      invariant if c.rampTimeMs > 0 then OnRamp(c, ms, duties) else forall k :: 0 <= k < |duties| ==> duties[k] == nan
      invariant motor.Valid() && motor.isActive && (tame ==> motor.applied == old(motor.applied) + duties)
      decreases |clock| - i
    {
      var elapsedMs := ElapsedMs(clock[i], clock[0], period);
      ElapsedNeverDecreases(clock, period, c.rampTimeMs, i - 1, i);
      ElapsedNeverDecreases(clock, period, c.rampTimeMs, i, |clock| - 1);
      RampIsOverIff(elapsedMs, c.rampTimeMs);
      if RampIsOver(elapsedMs, c.rampTimeMs) {
        break;
      }
      var value := nan;
      if c.rampTimeMs > 0 {
        RampIsMonotone(c, elapsedMs, elapsedMs);
        value := RampDuty(c, elapsedMs);
        OneMoreOnRamp(c, ms, duties, elapsedMs, value);
      }
      OneMoreRead(c, clock, period, ms, elapsedMs);
      motor.SetDuty(value);
      duties := duties + [value];
      ms := ms + [elapsedMs];
      i := i + 1;
    }
    if c.rampTimeMs > 0 {
      OnRampIsRamped(c, ms, duties);
      ReadingsAreOnCurve(c, clock, period, ms, duties);
    }
    motor.SetDuty(c.targetDuty);
    duties := duties + [c.targetDuty];
    ReadingsAreOnTime(c, clock, period, ms, duties);
  }

  /** One turn of the motor task's loop for the command it received. */
  method Obey(motor: MotorDriver, c: Command, clock: seq<nat>, period: nat, nan: nat) returns (duties: seq<nat>)
    requires motor.Valid()
    requires c.isActive ==> Ticking(clock, period, c.rampTimeMs)
    modifies motor
    ensures motor.Valid() && motor.isActive == c.isActive && motor.direction == Clockwise
    ensures !c.isActive ==> motor.duty == old(motor.duty) && duties == []
    ensures c.isActive ==> OnTime(c, clock, period, duties)
    ensures c.isActive && c.rampTimeMs > 0 ==> Ramped(c, duties) && OnCurve(c, clock, period, duties)
    ensures c.isActive ==> (motor.duty == c.targetDuty <==> c.targetDuty <= MAX_DUTY)
  {
    motor.SetActiveState(c.isActive);
    motor.SetDirection(Clockwise);
    duties := [];
    if c.isActive {
      duties := Adjust(motor, c, clock, period, nan);
    }
  }

  /** The motor task over any sequence of received commands: the outputs stay right, and the last command decides. */
  method ObeyAll(motor: MotorDriver, commands: seq<Command>, clocks: seq<seq<nat>>, period: nat, nan: nat)
    requires motor.Valid() && |clocks| == |commands|
    requires forall i :: 0 <= i < |commands| && commands[i].isActive ==>
               Ticking(clocks[i], period, commands[i].rampTimeMs)
    modifies motor
    ensures motor.Valid()
    ensures commands != [] ==> motor.isActive == commands[|commands| - 1].isActive
  {
    for i := 0 to |commands|
      invariant motor.Valid()
      invariant i > 0 ==> motor.isActive == commands[i - 1].isActive
    {
      var _ := Obey(motor, commands[i], clocks[i], period, nan);
    }
  }
}
