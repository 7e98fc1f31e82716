/**
 The PID controller: one update as a function on its state, what every run of its
 methods keeps, how fast its output can move, and where it settles. Powers are
 reals; the time of each update is an input.
 */
module Pid {
  import opened Bytes

  datatype Limits = Limits(minOutput: real, maxOutput: real, maxIntegral: real, deadband: real, maxRate: real)
  {
    /** The output range holds 0 and the integral has a range at all. */
    ghost predicate Sensible() {
      minOutput <= 0.0 <= maxOutput && 0.0 <= maxIntegral
    }
  }

  /** `lastTime` is `None` before the first update and after a reset. */
  datatype Pid = Pid(
    kp: real, ki: real, kd: real, setpoint: real,
    lastError: real, integral: real, lastOutput: real, lastTime: Option<real>, enabled: bool)

  // ----- One update

  /** The seconds an update counts for: 1 when the time since the last one makes no sense. */
  function Elapsed(last: Option<real>, now: real): (dt: real)
    ensures 0.0 < dt <= 10.0
  {
    if last.None? || now - last.value <= 0.0 || now - last.value > 10.0 then 1.0 else now - last.value
  }

  function Abs(r: real): real {
    if r < 0.0 then -r else r
  }

  function Deviation(p: Pid, lim: Limits, grid: real): real {
    var e := p.setpoint - grid;
    if Abs(e) < lim.deadband then 0.0 else e
  }

  /** Products and quotients of two varying quantities, named so that proofs may treat them as opaque values. */
  function Term(gain: real, value: real): real {
    gain * value
  }

  function PerSecond(value: real, dt: real): real
    requires dt > 0.0
  {
    value / dt
  }

  /** The share of a discharge command kept when there is little or no import. */
  function NearExport(grid: real): (f: real)
    ensures 0.3 <= f <= 1.0
  {
    Clamp(0.5 + grid / 200.0, 0.3, 1.0)
  }

  /** The raw response made more careful near and below zero grid power. */
  function Tempered(grid: real, raw: real): real {
    var r := if grid < 100.0 && raw < -100.0 then Term(raw, NearExport(grid)) else raw;
    if grid < 0.0 then r * 0.3 else r
  }

  function Accumulated(p: Pid, lim: Limits, error: real, dt: real): real {
    Clamp(p.integral + Term(error, dt), -lim.maxIntegral, lim.maxIntegral)
  }

  function Response(p: Pid, error: real, integral: real, dt: real): real
    requires dt > 0.0
  {
    Term(p.kp, error) + Term(p.ki, integral) + PerSecond(Term(p.kd, error - p.lastError), dt)
  }

  /** From `from` towards `to`, by no more than `step`. */
  function Towards(from: real, to: real, step: real): real {
    if to - from > step then from + step else if from - to > step then from - step else to
  }

  function Output(lim: Limits, last: real, wanted: real, dt: real): real {
    var moved := if lim.maxRate > 0.0 then Towards(last, wanted, Term(lim.maxRate, dt)) else wanted;
    Clamp(moved, lim.minOutput, lim.maxOutput)
  }

  function Updated(p: Pid, lim: Limits, grid: real, now: real): Pid {
    if !p.enabled then p
    else
      var dt := Elapsed(p.lastTime, now);
      var error := Deviation(p, lim, grid);
      var integral := Accumulated(p, lim, error, dt);
      var output := Output(lim, p.lastOutput, Tempered(grid, Response(p, error, integral, dt)), dt);
      p.(lastTime := Some(now), lastError := error, lastOutput := output,
         integral := if grid < 0.0 && integral < 0.0 then integral * 0.9 else integral)
  }

  // ----- Runs

  datatype Op =
    | Update(grid: real, now: real) | SetEnabled(enabled: bool) | SetSetpoint(watts: real)
    | SetGains(kp: real, ki: real, kd: real) | Reset

  function Apply(p: Pid, lim: Limits, op: Op): Pid {
    match op
    case Update(grid, now) => Updated(p, lim, grid, now)
    case SetEnabled(enabled) =>
      if enabled then p.(enabled := true) else p.(enabled := false, integral := 0.0, lastOutput := 0.0)
    case SetSetpoint(watts) => p.(setpoint := watts)
    case SetGains(kp, ki, kd) => p.(kp := kp, ki := ki, kd := kd)
    case Reset => p.(integral := 0.0, lastError := 0.0, lastOutput := 0.0, lastTime := None)
  }

  function Exec(p: Pid, lim: Limits, ops: seq<Op>): Pid
    decreases |ops|
  {
    if ops == [] then p else Exec(Apply(p, lim, ops[0]), lim, ops[1..])
  }

  ghost predicate Within(p: Pid, lim: Limits) {
    && -lim.maxIntegral <= p.integral <= lim.maxIntegral
    && lim.minOutput <= p.lastOutput <= lim.maxOutput
  }

  lemma StepStaysWithin(p: Pid, lim: Limits, op: Op)
    requires lim.Sensible() && Within(p, lim)
    ensures Within(Apply(p, lim, op), lim)
  {
    if op.Update? && p.enabled && op.grid < 0.0 {
      var dt := Elapsed(p.lastTime, op.now);
      var i := Accumulated(p, lim, Deviation(p, lim, op.grid), dt);
      assert i < 0.0 ==> i <= i * 0.9 <= 0.0;
    }
  }

  /** Under any interleaving of the methods the integral and the output stay in their limits. */
  lemma {:induction false} RunStaysWithin(p: Pid, lim: Limits, ops: seq<Op>)
    requires lim.Sensible() && Within(p, lim)
    ensures Within(Exec(p, lim, ops), lim)
    decreases |ops|
  {
    if ops != [] {
      StepStaysWithin(p, lim, ops[0]);
      RunStaysWithin(Apply(p, lim, ops[0]), lim, ops[1..]);
    }
  }

  /** Neither a reset nor a disabling, which set the output to 0 at once. */
  ghost predicate Steady(ops: seq<Op>) {
    forall k :: 0 <= k < |ops| ==> ops[k] != Reset && ops[k] != SetEnabled(false)
  }

  /** The seconds one call counts for. */
  function StepTime(p: Pid, op: Op): (t: real)
    ensures t >= 0.0
  {
    if op.Update? && p.enabled then Elapsed(p.lastTime, op.now) else 0.0
  }

  /** The seconds that the updates of a run count for. */
  function Spent(p: Pid, lim: Limits, ops: seq<Op>): (t: real)
    ensures t >= 0.0
    decreases |ops|
  {
    if ops == [] then 0.0
    else StepTime(p, ops[0]) + Spent(Apply(p, lim, ops[0]), lim, ops[1..])
  }

  /** Clamping after the rate limit moves the output no further than the rate limit alone allows. */
  lemma OutputMovesAtRate(lim: Limits, last: real, wanted: real, dt: real)
    requires lim.minOutput <= last <= lim.maxOutput && lim.maxRate > 0.0 && dt > 0.0
    ensures Abs(Output(lim, last, wanted, dt) - last) <= lim.maxRate * dt
    ensures Output(lim, last, wanted, dt)
            == Towards(last, Clamp(wanted, lim.minOutput, lim.maxOutput), lim.maxRate * dt)
  {
    hide Towards, Clamp, Abs;
    ProductAtLeast(lim.maxRate, dt, 0.0, 0.0);
    TowardsThenClamp(last, wanted, lim.maxRate * dt, lim.minOutput, lim.maxOutput);
  }

  lemma TowardsThenClamp(last: real, wanted: real, step: real, lo: real, hi: real)
    requires lo <= last <= hi && step >= 0.0
    ensures Abs(Clamp(Towards(last, wanted, step), lo, hi) - last) <= step
    ensures Clamp(Towards(last, wanted, step), lo, hi) == Towards(last, Clamp(wanted, lo, hi), step)
  {
  }

  lemma StepIsRateLimited(p: Pid, lim: Limits, op: Op)
    requires Within(p, lim) && lim.maxRate > 0.0 && op != Reset && op != SetEnabled(false)
    ensures Abs(Apply(p, lim, op).lastOutput - p.lastOutput) <= lim.maxRate * StepTime(p, op)
  {
    hide Output, Tempered, Response, Accumulated, Deviation, Elapsed;
    if op.Update? && p.enabled {
      var error, dt := Deviation(p, lim, op.grid), StepTime(p, op);
      var raw := Response(p, error, Accumulated(p, lim, error, dt), dt);
      OutputMovesAtRate(lim, p.lastOutput, Tempered(op.grid, raw), dt);
    }
  }

  /** Between resets and disablings, the outputs at any two moments differ by at
      most the rate limit times the time the updates in between count for. */
  lemma {:induction false} OutputIsRateLimited(p: Pid, lim: Limits, ops: seq<Op>)
    requires lim.Sensible() && Within(p, lim) && lim.maxRate > 0.0 && Steady(ops)
    ensures Abs(Exec(p, lim, ops).lastOutput - p.lastOutput) <= lim.maxRate * Spent(p, lim, ops)
    decreases |ops|
  {
    hide Apply, StepTime;
    if ops == [] {
      assert lim.maxRate * 0.0 == 0.0;
    } else {
      var q, rest := Apply(p, lim, ops[0]), ops[1..];
      StepStaysWithin(p, lim, ops[0]);
      assert ops[0] != Reset && ops[0] != SetEnabled(false);
      StepIsRateLimited(p, lim, ops[0]);
      OutputIsRateLimited(q, lim, rest);
      TwoMoves(p.lastOutput, q.lastOutput, Exec(p, lim, ops).lastOutput, lim.maxRate, StepTime(p, ops[0]),
          Spent(q, lim, rest), Spent(p, lim, ops));
    }
  }

  lemma TwoMoves(a: real, b: real, c: real, rate: real, x: real, y: real, t: real)
    requires Abs(b - a) <= rate * x && Abs(c - b) <= rate * y && t == x + y
    ensures Abs(c - a) <= rate * t
  {
    assert rate * (x + y) == rate * x + rate * y;
  }

  // ----- Recovery from a saturated integral

  /** Every update of the run sees an error of at least `e` for at least `d` seconds. */
  ghost predicate Pushes(p: Pid, lim: Limits, ops: seq<Op>, e: real, d: real)
    decreases |ops|
  {
    ops == [] ||
    (&& ops[0] != Reset && !ops[0].SetEnabled?
     && (ops[0].Update? ==> Deviation(p, lim, ops[0].grid) >= e && Elapsed(p.lastTime, ops[0].now) >= d)
     && Pushes(Apply(p, lim, ops[0]), lim, ops[1..], e, d))
  }

  function Updates(ops: seq<Op>): nat {
    if ops == [] then 0 else (if ops[0].Update? then 1 else 0) + Updates(ops[1..])
  }

  lemma ProductAtLeast(a: real, b: real, e: real, d: real)
    requires a >= e >= 0.0 && b >= d >= 0.0
    ensures a * b >= e * d
  {
    assert a * b >= a * d >= e * d;
  }

  /** One such call of the run: the integral gains `gain`, or nothing when the call is no update. */
  lemma PushedIntegral(p: Pid, lim: Limits, op: Op, e: real, d: real, gain: real)
    requires p.enabled && e > 0.0 && d > 0.0 && gain == e * d && op != Reset && !op.SetEnabled?
    requires op.Update? ==> Deviation(p, lim, op.grid) >= e && Elapsed(p.lastTime, op.now) >= d
    ensures gain >= 0.0 && Apply(p, lim, op).enabled
    ensures var i := Apply(p, lim, op).integral;
            if op.Update? then i >= lim.maxIntegral || i >= p.integral + gain else i == p.integral
  {
    ProductAtLeast(e, d, 0.0, 0.0);
    if op.Update? {
      var error, dt := Deviation(p, lim, op.grid), Elapsed(p.lastTime, op.now);
      ProductAtLeast(error, dt, e, d);
      assert Term(error, dt) >= gain;
      hide Term, Deviation, Elapsed, Response, Tempered, Output;
      var i := Accumulated(p, lim, error, dt);
      assert i >= lim.maxIntegral || i >= p.integral + gain;
    }
  }

  lemma OneMore(k: nat, q: real)
    requires q >= 0.0
    ensures (k + 1) as real * q == k as real * q + q && k as real * q >= 0.0
  {
    ProductAtLeast(k as real, q, 0.0, 0.0);
  }

  /** However long the integral was driven down, `k` updates with an error of at
      least `e` for at least `d` seconds each bring it up by `k * gain`, or to its upper limit. */
  lemma {:induction false} IntegralRecovers(p: Pid, lim: Limits, ops: seq<Op>, e: real, d: real, gain: real)
    requires lim.Sensible() && Within(p, lim) && p.enabled && e > 0.0 && d > 0.0 && gain == e * d
    requires Pushes(p, lim, ops, e, d)
    ensures var i := Exec(p, lim, ops).integral;
            && (i >= lim.maxIntegral || i >= p.integral + Updates(ops) as real * gain)
            && (i >= lim.maxIntegral || i >= Updates(ops) as real * gain - lim.maxIntegral)
    decreases |ops|
  {
    hide Apply, Deviation, Elapsed;
    if ops == [] {
      assert 0 as real * gain == 0.0;
    } else {
      var q, rest := Apply(p, lim, ops[0]), ops[1..];
      StepStaysWithin(p, lim, ops[0]);
      PushedIntegral(p, lim, ops[0], e, d, gain);
      IntegralRecovers(q, lim, rest, e, d, gain);
      OneMore(Updates(rest), gain);
    }
  }

  // ----- A constant grid power

  ghost predicate AllAt(ops: seq<Op>, grid: real) {
    forall k :: 0 <= k < |ops| ==> ops[k].Update? && ops[k].grid == grid
  }

  lemma ClampTwice(i: real, a: real, b: real, m: real)
    requires -m <= i <= m && ((a >= 0.0 && b >= 0.0) || (a <= 0.0 && b <= 0.0))
    ensures Clamp(Clamp(i + a, -m, m) + b, -m, m) == Clamp(i + (a + b), -m, m)
  {
  }

  lemma TermOverTime(e: real, x: real, y: real)
    requires x >= 0.0 && y >= 0.0
    ensures Term(e, x) + Term(e, y) == Term(e, x + y)
    ensures (Term(e, x) >= 0.0 && Term(e, y) >= 0.0) || (Term(e, x) <= 0.0 && Term(e, y) <= 0.0)
  {
    if e >= 0.0 {
      ProductAtLeast(e, x, 0.0, 0.0);
      ProductAtLeast(e, y, 0.0, 0.0);
    } else {
      ProductAtLeast(-e, x, 0.0, 0.0);
      ProductAtLeast(-e, y, 0.0, 0.0);
    }
  }

  /** At a constant grid power that is no export the integral after any number of updates
      is that of one update that counts for all their time. */
  lemma {:induction false} IntegralOfConstantGrid(p: Pid, lim: Limits, ops: seq<Op>, grid: real)
    requires lim.Sensible() && Within(p, lim) && p.enabled && grid >= 0.0 && AllAt(ops, grid)
    ensures Exec(p, lim, ops).integral
            == Clamp(p.integral + Term(Deviation(p, lim, grid), Spent(p, lim, ops)), -lim.maxIntegral, lim.maxIntegral)
    decreases |ops|
  {
    var e := Deviation(p, lim, grid);
    if ops == [] {
      assert Term(e, 0.0) == 0.0;
    } else {
      var q, rest := Apply(p, lim, ops[0]), ops[1..];
      var dt := StepTime(p, ops[0]);
      StepStaysWithin(p, lim, ops[0]);
      assert q.integral == Clamp(p.integral + Term(e, dt), -lim.maxIntegral, lim.maxIntegral);
      assert q.setpoint == p.setpoint && q.enabled;
      IntegralOfConstantGrid(q, lim, rest, grid);
      hide Apply, StepTime, Clamp, Term;
      TermOverTime(e, dt, Spent(q, lim, rest));
      ClampTwice(p.integral, Term(e, dt), Term(e, Spent(q, lim, rest)), lim.maxIntegral);
    }
  }

  // ----- Settling

  ghost predicate InDeadband(p: Pid, lim: Limits, grid: real) {
    -lim.deadband < p.setpoint - grid < lim.deadband
  }

  /** Where the output goes while the grid power stays inside the deadband: the scaled integral term, clamped. */
  function Target(p: Pid, lim: Limits, grid: real): real {
    Clamp(Tempered(grid, Term(p.ki, p.integral)), lim.minOutput, lim.maxOutput)
  }

  /** Updates at a constant grid power, each at least `d` seconds after the one before. */
  ghost predicate ConstantGrid(p: Pid, lim: Limits, grid: real, ops: seq<Op>, d: real)
    decreases |ops|
  {
    ops == [] ||
    (&& ops[0].Update? && ops[0].grid == grid && Elapsed(p.lastTime, ops[0].now) >= d
     && ConstantGrid(Apply(p, lim, ops[0]), lim, grid, ops[1..], d))
  }

  /** The first update inside the deadband clears the derivative term of all later ones. */
  lemma FirstStepClearsError(p: Pid, lim: Limits, op: Op)
    requires lim.Sensible() && Within(p, lim) && p.enabled && op.Update? && InDeadband(p, lim, op.grid)
    ensures var q := Apply(p, lim, op);
            q.lastError == 0.0 && q.enabled && Within(q, lim) && InDeadband(q, lim, op.grid)
  {
    StepStaysWithin(p, lim, op);
  }

  lemma QuietResponse(p: Pid, dt: real)
    requires p.lastError == 0.0 && dt > 0.0
    ensures Response(p, 0.0, p.integral, dt) == Term(p.ki, p.integral)
  {
    assert PerSecond(Term(p.kd, 0.0), dt) == 0.0;
  }

  /** Later updates only move the output towards the target, which stays where it is. */
  lemma LaterStepMovesToTarget(p: Pid, lim: Limits, grid: real, now: real)
    requires lim.Sensible() && Within(p, lim) && lim.maxRate > 0.0
    requires p.enabled && p.lastError == 0.0 && grid >= 0.0 && InDeadband(p, lim, grid)
    ensures var q := Updated(p, lim, grid, now);
            && q == p.(lastTime := Some(now), lastOutput := q.lastOutput)
            && q.lastOutput == Towards(p.lastOutput, Target(p, lim, grid), lim.maxRate * Elapsed(p.lastTime, now))
  {
    hide Response, Output, Tempered, Elapsed;
    var dt := Elapsed(p.lastTime, now);
    assert Term(0.0, dt) == 0.0;
    QuietResponse(p, dt);
    OutputMovesAtRate(lim, p.lastOutput, Tempered(grid, Term(p.ki, p.integral)), dt);
  }

  ghost predicate Between(a: real, x: real, b: real) {
    a <= x <= b || b <= x <= a
  }

  /** One move of at least `step` towards `t`, then `k` more steps. */
  lemma OneMoveMore(a: real, b: real, c: real, t: real, move: real, step: real, k: nat)
    requires b == Towards(a, t, move) && move >= step >= 0.0
    requires Between(b, c, t) && (c == t || Abs(t - c) <= Abs(t - b) - k as real * step)
    ensures Between(a, c, t) && (c == t || Abs(t - c) <= Abs(t - a) - (k + 1) as real * step)
  {
    OneMore(k, step);
  }

  /** From the second step on the output goes to its target without overshoot:
      each step brings it nearer by at least `maxRate * d` until it is there, and it stays. */
  lemma {:induction false} Settles(p: Pid, lim: Limits, grid: real, ops: seq<Op>, d: real)
    requires lim.Sensible() && Within(p, lim) && lim.maxRate > 0.0 && d > 0.0
    requires p.enabled && p.lastError == 0.0 && grid >= 0.0 && InDeadband(p, lim, grid)
    requires ConstantGrid(p, lim, grid, ops, d)
    ensures var (q, t) := (Exec(p, lim, ops), Target(p, lim, grid));
            && Target(q, lim, grid) == t
            && Between(p.lastOutput, q.lastOutput, t)
            && (q.lastOutput == t || Abs(t - q.lastOutput) <= Abs(t - p.lastOutput) - |ops| as real * (lim.maxRate * d))
    decreases |ops|
  {
    hide Updated, Elapsed, Towards, Target;
    if ops == [] {
      assert 0 as real * (lim.maxRate * d) == 0.0;
    } else {
      var now := ops[0].now;
      var q := Apply(p, lim, ops[0]);
      LaterStepMovesToTarget(p, lim, grid, now);
      StepStaysWithin(p, lim, ops[0]);
      SameTarget(p, q, lim, grid);
      Settles(q, lim, grid, ops[1..], d);
      ProductAtLeast(lim.maxRate, Elapsed(p.lastTime, now), lim.maxRate, d);
      ProductAtLeast(lim.maxRate, d, 0.0, 0.0);
      OneMoveMore(p.lastOutput, q.lastOutput, Exec(q, lim, ops[1..]).lastOutput, Target(p, lim, grid),
                  lim.maxRate * Elapsed(p.lastTime, now), lim.maxRate * d, |ops| - 1);
    }
  }

  lemma SameTarget(p: Pid, q: Pid, lim: Limits, grid: real)
    requires p.ki == q.ki && p.integral == q.integral
    ensures Target(p, lim, grid) == Target(q, lim, grid)
  {
  }

  /** ... so it is at its target after any number of steps that covers the distance at `maxRate * d` a step. */
  lemma SettledAfterSteps(p: Pid, lim: Limits, grid: real, ops: seq<Op>, d: real)
    requires lim.Sensible() && Within(p, lim) && lim.maxRate > 0.0 && d > 0.0
    requires p.enabled && p.lastError == 0.0 && grid >= 0.0 && InDeadband(p, lim, grid)
    requires ConstantGrid(p, lim, grid, ops, d)
    requires |ops| as real * (lim.maxRate * d) >= Abs(Target(p, lim, grid) - p.lastOutput)
    ensures Exec(p, lim, ops).lastOutput == Target(p, lim, grid)
  {
    Settles(p, lim, grid, ops, d);
  }

  /** From any state: the first update clears the error, and from the second on the output
      goes to its target without overshoot and is there, and stays, after any number of
      steps that covers the distance left by the first at `maxRate * d` a step. */
  lemma SettlesInTime(p: Pid, lim: Limits, grid: real, ops: seq<Op>, d: real)
    requires lim.Sensible() && Within(p, lim) && lim.maxRate > 0.0 && d > 0.0
    requires p.enabled && grid >= 0.0 && InDeadband(p, lim, grid)
    requires ops != [] && ConstantGrid(p, lim, grid, ops, d)
    ensures var (first, last) := (Apply(p, lim, ops[0]), Exec(p, lim, ops));
            var t := Target(first, lim, grid);
            && Target(last, lim, grid) == t
            && Between(first.lastOutput, last.lastOutput, t)
            && ((|ops| - 1) as real * (lim.maxRate * d) >= Abs(t - first.lastOutput) ==> last.lastOutput == t)
  {
    hide Apply, Target, Within, InDeadband;
    var first, rest := Apply(p, lim, ops[0]), ops[1..];
    FirstStepClearsError(p, lim, ops[0]);
    Settles(first, lim, grid, rest, d);
    assert |rest| == |ops| - 1;
    if |rest| as real * (lim.maxRate * d) >= Abs(Target(first, lim, grid) - first.lastOutput) {
      SettledAfterSteps(first, lim, grid, rest, d);
    }
  }

  // ----- What the command means

  /** With unit proportional gain alone and no limit in the way, the command
      cancels the deviation on import; on export only 30 percent of it. */
  lemma ProportionalCancelsGrid(p: Pid, lim: Limits, grid: real, now: real)
    requires p.enabled && p.kp == 1.0 && p.ki == 0.0 && p.kd == 0.0 && lim.maxRate <= 0.0
    requires !InDeadband(p, lim, grid)
    requires lim.minOutput <= p.setpoint - grid <= lim.maxOutput
    requires lim.minOutput <= 0.3 * (p.setpoint - grid) <= lim.maxOutput
    ensures grid >= 100.0 ==> Updated(p, lim, grid, now).lastOutput == p.setpoint - grid
    ensures grid < 0.0 && p.setpoint - grid >= -100.0 ==>
            Updated(p, lim, grid, now).lastOutput == 0.3 * (p.setpoint - grid)
  {
    var dt := Elapsed(p.lastTime, now);
    var e := Deviation(p, lim, grid);
    assert PerSecond(Term(p.kd, e - p.lastError), dt) == 0.0;
    assert Term(p.ki, Accumulated(p, lim, e, dt)) == 0.0;
  }

  /** From rest, importing more than wanted never makes the command a charge, and importing less or
      exporting never makes it a discharge. */
  lemma CommandOpposesDeviation(p: Pid, lim: Limits, grid: real, now: real)
    requires lim.Sensible() && p.enabled && p.kp >= 0.0 && p.ki >= 0.0 && p.kd >= 0.0
    requires p.integral == 0.0 && p.lastError == 0.0 && p.lastOutput == 0.0
    ensures grid >= p.setpoint ==> Updated(p, lim, grid, now).lastOutput <= 0.0
    ensures grid <= p.setpoint ==> Updated(p, lim, grid, now).lastOutput >= 0.0
  {
    hide Elapsed, Response, Tempered, Output;
    var dt, e := Elapsed(p.lastTime, now), Deviation(p, lim, grid);
    var i := Accumulated(p, lim, e, dt);
    SignOfTerm(dt, e);
    assert Term(dt, e) == Term(e, dt);
    SignOfResponse(p, e, i, dt);
    var raw := Response(p, e, i, dt);
    TemperedKeepsSign(grid, raw);
    OutputFromZero(lim, Tempered(grid, raw), dt);
  }

  ghost predicate SameSign(x: real, y: real) {
    (x >= 0.0 ==> y >= 0.0) && (x <= 0.0 ==> y <= 0.0)
  }

  lemma SignOfTerm(gain: real, value: real)
    requires gain >= 0.0
    ensures SameSign(value, Term(gain, value))
  {
    if value >= 0.0 {
      ProductAtLeast(gain, value, 0.0, 0.0);
    }
    if value <= 0.0 {
      ProductAtLeast(gain, -value, 0.0, 0.0);
    }
  }

  lemma SignOfResponse(p: Pid, e: real, i: real, dt: real)
    requires p.kp >= 0.0 && p.ki >= 0.0 && p.kd >= 0.0 && p.lastError == 0.0 && dt > 0.0 && SameSign(e, i)
    ensures SameSign(e, Response(p, e, i, dt))
  {
    SignOfTerm(p.kp, e);
    SignOfTerm(p.ki, i);
    SignOfTerm(p.kd, e);
    assert e - p.lastError == e;
    SignOfQuotient(Term(p.kd, e), dt);
    hide Term;
  }

  lemma SignOfQuotient(x: real, dt: real)
    requires dt > 0.0
    ensures SameSign(x, PerSecond(x, dt))
  {
  }

  lemma TemperedKeepsSign(grid: real, raw: real)
    ensures SameSign(raw, Tempered(grid, raw))
  {
    if raw < 0.0 {
      ProductAtLeast(-raw, NearExport(grid), 0.0, 0.0);
    }
  }

  lemma OutputFromZero(lim: Limits, wanted: real, dt: real)
    requires lim.Sensible() && dt > 0.0
    ensures SameSign(wanted, Output(lim, 0.0, wanted, dt))
  {
    if lim.maxRate > 0.0 {
      ProductAtLeast(lim.maxRate, dt, 0.0, 0.0);
    }
  }

  /** The asymmetric stage never strengthens a response, and strengthens it again as import grows. */
  lemma TemperedGrowsWithImport(less: real, more: real, raw: real)
    requires less <= more
    ensures Abs(Tempered(less, raw)) <= Abs(Tempered(more, raw)) <= Abs(raw)
  {
    var f, g := NearExport(less), NearExport(more);
    SmallerShare(raw, f, g);
    SmallerShare(raw, g, 1.0);
    TemperedShare(less, raw);
    TemperedShare(more, raw);
    hide NearExport, Tempered, Term;
  }

  lemma SmallerShare(raw: real, f: real, g: real)
    requires 0.0 <= f <= g <= 1.0
    ensures Abs(Term(raw, f)) <= Abs(Term(raw, g)) <= Abs(raw)
    ensures g == 1.0 ==> Term(raw, g) == raw
  {
    SizeOfShare(raw, f);
    SizeOfShare(raw, g);
    ProductAtLeast(Abs(raw), g, Abs(raw), f);
    ProductAtLeast(Abs(raw), 1.0, Abs(raw), g);
  }

  lemma SizeOfShare(raw: real, f: real)
    requires f >= 0.0
    ensures Abs(Term(raw, f)) == Abs(raw) * f
  {
    ProductAtLeast(Abs(raw), f, 0.0, 0.0);
  }

  lemma TemperedShare(grid: real, raw: real)
    ensures var kept := if grid < 100.0 && raw < -100.0 then Abs(Term(raw, NearExport(grid))) else Abs(raw);
            Abs(Tempered(grid, raw)) == if grid < 0.0 then 0.3 * kept else kept
  {
    hide NearExport, Term;
  }

  // ----- Wind-up during export

  function Decay(k: nat): (d: real)
    ensures 0.0 < d <= 1.0
  {
    if k == 0 then 1.0 else 0.9 * Decay(k - 1)
  }

  ghost predicate Exporting(ops: seq<Op>, setpoint: real) {
    forall k :: 0 <= k < |ops| ==> ops[k].Update? && ops[k].grid < 0.0 && ops[k].grid <= setpoint
  }

  lemma ExportingStep(p: Pid, lim: Limits, op: Op)
    requires lim.Sensible() && Within(p, lim) && p.enabled && op.Update? && op.grid < 0.0 && op.grid <= p.setpoint
    ensures var q := Apply(p, lim, op);
            q.enabled && q.setpoint == p.setpoint && (q.integral >= 0.0 || q.integral >= p.integral * 0.9)
  {
    ProductAtLeast(Deviation(p, lim, op.grid), Elapsed(p.lastTime, op.now), 0.0, 0.0);
    hide Response, Tempered, Output;
  }

  lemma DecayStep(x: real, y: real, k: nat)
    requires y >= x * 0.9
    ensures x * Decay(k + 1) <= y * Decay(k)
  {
    ProductAtLeast(y - x * 0.9, Decay(k), 0.0, 0.0);
    assert y * Decay(k) == (y - x * 0.9) * Decay(k) + x * (0.9 * Decay(k));
  }

  /** While exporting more than wanted, whatever discharge the integral had wound up is
      down to at most 0.9 to the `k` of it after `k` updates. */
  lemma {:induction false} WindupDecays(p: Pid, lim: Limits, ops: seq<Op>)
    requires lim.Sensible() && Within(p, lim) && p.enabled && Exporting(ops, p.setpoint)
    ensures var i := Exec(p, lim, ops).integral; i >= 0.0 || i >= p.integral * Decay(|ops|)
    decreases |ops|
  {
    hide Apply, Within;
    if ops == [] {
      assert p.integral * 1.0 == p.integral;
    } else {
      var q := Apply(p, lim, ops[0]);
      StepStaysWithin(p, lim, ops[0]);
      ExportingStep(p, lim, ops[0]);
      WindupDecays(q, lim, ops[1..]);
      if q.integral >= 0.0 {
        ProductAtLeast(q.integral, Decay(|ops| - 1), 0.0, 0.0);
      } else {
        DecayStep(p.integral, q.integral, |ops| - 1);
      }
    }
  }

  // ----- An update in numbers

  /** A whole update written out: the seconds `dt`, the error `e` and the integral `i` it works with, the raw response,
      the two reductions near and below zero grid power, the rate limit, the range, and what it keeps. */
  lemma UpdateInNumbers(p: Pid, lim: Limits, grid: real, now: real, dt: real, e: real, i: real, raw: real, calm: real,
                        step: real, slow: real)
    requires p.enabled && lim.Sensible()
    requires dt == if p.lastTime.Some? && 0.0 < now - p.lastTime.value <= 10.0 then now - p.lastTime.value else 1.0
    requires e == if -lim.deadband < p.setpoint - grid < lim.deadband then 0.0 else p.setpoint - grid
    requires i == if p.integral + e * dt > lim.maxIntegral then lim.maxIntegral
                  else if p.integral + e * dt < -lim.maxIntegral then -lim.maxIntegral else p.integral + e * dt
    requires raw == p.kp * e + p.ki * i + p.kd * (e - p.lastError) / dt
    requires calm == (if grid >= 100.0 || raw >= -100.0 then raw
                      else if grid >= -40.0 then raw * (0.5 + grid / 200.0) else raw * 0.3)
                     * (if grid < 0.0 then 0.3 else 1.0)
    requires step == lim.maxRate * dt
    requires slow == if lim.maxRate <= 0.0 then calm
                     else if calm > p.lastOutput + step then p.lastOutput + step
                     else if calm < p.lastOutput - step then p.lastOutput - step else calm
    ensures var q := Updated(p, lim, grid, now);
            && q == p.(lastTime := Some(now), lastError := e, lastOutput := q.lastOutput,
                       integral := if grid < 0.0 && i < 0.0 then i * 0.9 else i)
            && q.lastOutput == if slow > lim.maxOutput then lim.maxOutput
                               else if slow < lim.minOutput then lim.minOutput else slow
  {
    hide Tempered, Output, Response, Accumulated, Deviation, Elapsed;
    TermsInNumbers(p, lim, grid, now);
    AccumulatedInNumbers(p, lim, e, dt);
    ResponseInNumbers(p, e, i, dt);
    TemperedInNumbers(grid, raw);
    OutputInNumbers(lim, p.lastOutput, calm, dt);
  }

  lemma TermsInNumbers(p: Pid, lim: Limits, grid: real, now: real)
    ensures Elapsed(p.lastTime, now)
            == if p.lastTime.Some? && 0.0 < now - p.lastTime.value <= 10.0 then now - p.lastTime.value else 1.0
    ensures Deviation(p, lim, grid)
            == if -lim.deadband < p.setpoint - grid < lim.deadband then 0.0 else p.setpoint - grid
  {
  }

  lemma AccumulatedInNumbers(p: Pid, lim: Limits, e: real, dt: real)
    requires lim.Sensible()
    ensures Accumulated(p, lim, e, dt)
            == if p.integral + e * dt > lim.maxIntegral then lim.maxIntegral
               else if p.integral + e * dt < -lim.maxIntegral then -lim.maxIntegral else p.integral + e * dt
  {
  }

  lemma ResponseInNumbers(p: Pid, e: real, i: real, dt: real)
    requires dt > 0.0
    ensures Response(p, e, i, dt) == p.kp * e + p.ki * i + p.kd * (e - p.lastError) / dt
  {
  }

  lemma TemperedInNumbers(grid: real, raw: real)
    ensures Tempered(grid, raw)
            == (if grid >= 100.0 || raw >= -100.0 then raw
                else if grid >= -40.0 then raw * (0.5 + grid / 200.0) else raw * 0.3)
               * (if grid < 0.0 then 0.3 else 1.0)
  {
    assert NearExport(grid) == if grid >= 100.0 then 1.0 else if grid >= -40.0 then 0.5 + grid / 200.0 else 0.3;
  }

  lemma OutputInNumbers(lim: Limits, last: real, wanted: real, dt: real)
    requires lim.Sensible()
    ensures var step := lim.maxRate * dt;
            var slow := if lim.maxRate <= 0.0 then wanted else if wanted > last + step then last + step
                        else if wanted < last - step then last - step else wanted;
            Output(lim, last, wanted, dt)
            == if slow > lim.maxOutput then lim.maxOutput else if slow < lim.minOutput then lim.minOutput else slow
  {
  }

  lemma DisabledUpdateDoesNothing(p: Pid, lim: Limits, grid: real, now: real)
    requires !p.enabled
    ensures Updated(p, lim, grid, now) == p
  {
  }

  /** The derivative answers the change of the error only: at a second update at the same grid power, with nothing in
      the way, the command is the proportional and the integral term alone. */
  lemma SteadyErrorHasNoDerivative(p: Pid, lim: Limits, grid: real, now: real, later: real, e: real, i: real)
    requires p.enabled && lim.Sensible() && lim.maxRate <= 0.0 && grid >= 100.0
    requires var q := Updated(Updated(p, lim, grid, now), lim, grid, later);
             e == q.lastError && i == q.integral && lim.minOutput < q.lastOutput < lim.maxOutput
    ensures Updated(Updated(p, lim, grid, now), lim, grid, later).lastOutput == p.kp * e + p.ki * i
  {
    hide Updated, Deviation, Elapsed, Response;
    var one := Updated(p, lim, grid, now);
    var dt := Elapsed(one.lastTime, later);
    SameDeviation(p, lim, grid, now);
    FreeOutput(one, lim, grid, later);
    SteadyResponse(one, e, i, dt);
  }

  lemma SteadyResponse(p: Pid, e: real, i: real, dt: real)
    requires dt > 0.0 && e == p.lastError
    ensures Response(p, e, i, dt) == p.kp * e + p.ki * i
  {
    assert p.kd * 0.0 / dt == 0.0;
  }

  lemma SameDeviation(p: Pid, lim: Limits, grid: real, now: real)
    requires p.enabled
    ensures var q := Updated(p, lim, grid, now);
            && q.lastError == Deviation(q, lim, grid) && q.enabled
            && q.kp == p.kp && q.ki == p.ki && q.kd == p.kd
  {
    hide Elapsed, Accumulated, Tempered, Output, Response;
  }

  lemma NoChange(kd: real, dt: real)
    requires dt > 0.0
    ensures kd * 0.0 / dt == 0.0
  {
  }

  /** With no limit in the way, on an import of 100 W or more, the command is the sum of the three terms. */
  lemma FreeCommand(p: Pid, lim: Limits, grid: real, now: real, dt: real, e: real, i: real, raw: real)
    requires p.enabled && lim.Sensible() && lim.maxRate <= 0.0 && grid >= 100.0
    requires dt == if p.lastTime.Some? && 0.0 < now - p.lastTime.value <= 10.0 then now - p.lastTime.value else 1.0
    requires var q := Updated(p, lim, grid, now);
             e == q.lastError && i == q.integral && lim.minOutput < q.lastOutput < lim.maxOutput
    requires raw == p.kp * e + p.ki * i + p.kd * (e - p.lastError) / dt
    ensures Updated(p, lim, grid, now).lastOutput == raw
  {
    hide Updated, Response, Elapsed, Deviation;
    TermsInNumbers(p, lim, grid, now);
    FreeOutput(p, lim, grid, now);
    ResponseInNumbers(p, e, i, dt);
  }

  lemma FreeOutput(p: Pid, lim: Limits, grid: real, now: real)
    requires p.enabled && lim.Sensible() && lim.maxRate <= 0.0 && grid >= 100.0
    requires lim.minOutput < Updated(p, lim, grid, now).lastOutput < lim.maxOutput
    ensures var q := Updated(p, lim, grid, now);
            && q.lastError == Deviation(p, lim, grid) && q.lastTime == Some(now)
            && q.lastOutput == Response(p, q.lastError, q.integral, Elapsed(p.lastTime, now))
  {
    hide Response, Accumulated, Deviation, Elapsed, Tempered, Output;
    var dt, e := Elapsed(p.lastTime, now), Deviation(p, lim, grid);
    var raw := Response(p, e, Accumulated(p, lim, e, dt), dt);
    AboveHundred(grid, raw);
    FreeRange(lim, p.lastOutput, raw, dt);
  }

  lemma FreeRange(lim: Limits, last: real, wanted: real, dt: real)
    requires lim.maxRate <= 0.0 && lim.minOutput < Output(lim, last, wanted, dt) < lim.maxOutput
    ensures Output(lim, last, wanted, dt) == wanted
  {
  }

  lemma AboveHundred(grid: real, raw: real)
    requires grid >= 100.0
    ensures Tempered(grid, raw) == raw
  {
  }

  /** The default controller, importing 500 W at two updates a second apart: it commands 650 W, then 700 W. */
  lemma DefaultControllerExample(now: real)
    ensures var lim := Limits(-5000.0, 5000.0, 5000.0, 10.0, 2000.0);
            var p := Pid(1.1, 0.15, 0.05, 0.0, 0.0, 0.0, 0.0, None, true);
            var one := Updated(p, lim, 500.0, now);
            one.lastOutput == -650.0 && Updated(one, lim, 500.0, now + 1.0).lastOutput == -700.0
  {
    var lim := Limits(-5000.0, 5000.0, 5000.0, 10.0, 2000.0);
    var p := Pid(1.1, 0.15, 0.05, 0.0, 0.0, 0.0, 0.0, None, true);
    UpdateInNumbers(p, lim, 500.0, now, 1.0, -500.0, -500.0, -650.0, -650.0, 2000.0, -650.0);
    var one := Updated(p, lim, 500.0, now);
    UpdateInNumbers(one, lim, 500.0, now + 1.0, 1.0, -500.0, -1000.0, -700.0, -700.0, 2000.0, -700.0);
    hide Updated;
  }

  /** What the other methods change, and that they change nothing else. A reset controller is as new, but for its
      settings; a disabled one keeps its last error and time. */
  lemma SettersInNumbers(p: Pid, lim: Limits, x: real, y: real, z: real)
    ensures Apply(p, lim, Reset) == Pid(p.kp, p.ki, p.kd, p.setpoint, 0.0, 0.0, 0.0, None, p.enabled)
    ensures Apply(p, lim, SetEnabled(true)) == p.(enabled := true)
    ensures Apply(p, lim, SetEnabled(false)) == p.(enabled := false, integral := 0.0, lastOutput := 0.0)
    ensures Apply(p, lim, SetSetpoint(x)) == p.(setpoint := x)
    ensures Apply(p, lim, SetGains(x, y, z)) == p.(kp := x, ki := y, kd := z)
  {
  }

  // ----- The controller object

  class Controller {
    var kp: real
    var ki: real
    var kd: real
    var setpoint: real
    const lim: Limits
    var lastError: real
    var integral: real
    var lastOutput: real
    var lastTime: Option<real>
    var enabled: bool

    function State(): Pid
      reads this
    {
      Pid(kp, ki, kd, setpoint, lastError, integral, lastOutput, lastTime, enabled)
    }

    constructor (kp: real, ki: real, kd: real, setpoint: real, lim: Limits)
      ensures State() == Pid(kp, ki, kd, setpoint, 0.0, 0.0, 0.0, None, true) && this.lim == lim
    {
      this.kp, this.ki, this.kd, this.setpoint := kp, ki, kd, setpoint;
      this.lim := lim;
      lastError, integral, lastOutput, lastTime, enabled := 0.0, 0.0, 0.0, None, true;
    }

    method Update(gridPower: real, now: real) returns (output: real)
      modifies this`lastTime, this`integral, this`lastError, this`lastOutput
      ensures State() == Updated(old(State()), lim, gridPower, now)
      ensures output == if enabled then lastOutput else 0.0
    {
      if !enabled {
        return 0.0;
      }
      hide Term, PerSecond;
      ghost var p := State();
      var dt := if lastTime.Some? then now - lastTime.value else 0.0;
      if dt <= 0.0 || dt > 10.0 {
        dt := 1.0;
      }
      assert dt == Elapsed(p.lastTime, now);
      hide Elapsed;
      lastTime := Some(now);
      var error := setpoint - gridPower;
      if Abs(error) < lim.deadband {
        error := 0.0;
      }
      assert error == Deviation(p, lim, gridPower);
      hide Deviation;
      var pTerm := Term(kp, error);
      integral := integral + Term(error, dt);
      integral := Clamp(integral, -lim.maxIntegral, lim.maxIntegral);
      assert integral == Accumulated(p, lim, error, dt);
      hide Accumulated;
      var iTerm := Term(ki, integral);
      var dTerm := 0.0;
      if dt > 0.0 {
        dTerm := PerSecond(Term(kd, error - lastError), dt);
      }
      lastError := error;
      output := pTerm + iTerm + dTerm;
      assert output == Response(p, error, integral, dt);
      hide Response, Tempered, Output;
      output := Temper(gridPower, output);
      if gridPower < 0.0 && integral < 0.0 {
        integral := integral * 0.9;
      }
      output := Limit(output, dt);
      lastOutput := output;
    }

    /** The asymmetric stage of an update. */
    method Temper(gridPower: real, raw: real) returns (output: real)
      ensures output == Tempered(gridPower, raw)
    {
      output := raw;
      if gridPower < 100.0 && output < -100.0 {
        var scaleFactor := 0.5 + gridPower / 200.0;
        if scaleFactor < 0.3 {
          scaleFactor := 0.3;
        }
        if scaleFactor > 1.0 {
          scaleFactor := 1.0;
        }
        output := Term(output, scaleFactor);
      }
      if gridPower < 0.0 {
        output := output * 0.3;
      }
    }

    /** The rate limit of an update, then the output range. */
    method Limit(wanted: real, dt: real) returns (output: real)
      ensures output == Output(lim, lastOutput, wanted, dt)
    {
      output := wanted;
      if lim.maxRate > 0.0 {
        hide Term;
        var maxChange := Term(lim.maxRate, dt);
        if output - lastOutput > maxChange {
          output := lastOutput + maxChange;
        } else if lastOutput - output > maxChange {
          output := lastOutput - maxChange;
        }
      }
      output := Clamp(output, lim.minOutput, lim.maxOutput);
    }

    method SetEnabled(on: bool)
      modifies this`enabled, this`integral, this`lastOutput
      ensures State() == Apply(old(State()), lim, Op.SetEnabled(on))
    {
      enabled := on;
      if !on {
        integral := 0.0;
        lastOutput := 0.0;
      }
    }

    method SetSetpoint(watts: real)
      modifies this`setpoint
      ensures State() == Apply(old(State()), lim, Op.SetSetpoint(watts))
    {
      setpoint := watts;
    }

    method SetGains(kp: real, ki: real, kd: real)
      modifies this`kp, this`ki, this`kd
      ensures State() == Apply(old(State()), lim, Op.SetGains(kp, ki, kd))
    {
      this.kp, this.ki, this.kd := kp, ki, kd;
    }

    method Reset()
      modifies this`integral, this`lastError, this`lastOutput, this`lastTime
      ensures State() == Apply(old(State()), lim, Op.Reset)
    {
      integral, lastError, lastOutput, lastTime := 0.0, 0.0, 0.0, None;
    }
  }
}
