/**
 The bounded feedforward-plus-PI speed controller: one decision per timer cycle, an integrator with
 anti-windup and typed freeze reasons, and live retuning. Scalars are exact reals with one
 non-finite value where the controller tests for it. Steering and diagnostics text are not modelled.
 */
module DriveAdapter {

  import opened Options
  import opened Numbers


  const MAX_INTEGRATION_DT: real := 0.5
  const SELECTION_TOLERANCE: real := 0.000000001
  /** The shared tuning policy. */
  const MAXIMUM_COMMANDED_SPEED: real := 2.0
  const MAXIMUM_OUTPUT_AUTHORITY: real := 0.30
  const SPIN_SLACK: real := 0.000000000001

  function Clamp(lo: real, hi: real, x: real): real { Max(lo, Min(hi, x)) }

  datatype Config = Config(
    slope: real, intercept: real, minSpeed: real, maxSpeed: real, kp: real, ki: real, bound: real,
    outMin: real, outMax: real, metresPerEdge: real, spinRatio: real, spinExcess: real, spinQualification: real,
    motionTimeout: real, encoderTimeout: real, commandTimeout: real, rate: real) {

    function Feedforward(speed: real): real {
      slope * Abs(speed) + intercept
    }

    /** The checks made on construction and on every live change. */
    predicate Valid() {
      && slope > 0.0 && minSpeed > 0.0 && maxSpeed > 0.0 && kp > 0.0 && bound > 0.0 && metresPerEdge > 0.0
      && spinRatio > 1.0 && spinQualification > 0.0 && motionTimeout > 0.0 && encoderTimeout > 0.0
      && commandTimeout > 0.0 && rate > 0.0
      && ki >= 0.0 && maxSpeed >= minSpeed && maxSpeed <= MAXIMUM_COMMANDED_SPEED
      && outMin == 0.0 && 0.0 < outMax <= MAXIMUM_OUTPUT_AUTHORITY
      && 0.0 <= Feedforward(maxSpeed) <= outMax && Feedforward(minSpeed) >= 0.0
      && spinExcess >= 0.0
    }
  }

  lemma MulOrder(a: real, b: real, c: real)
    requires a > 0.0 && b <= c
    ensures a * b <= a * c
  {
    assert a * (c - b) >= 0.0;
  }

  lemma FeedforwardMonotone(c: Config, a: real, b: real)
    requires c.slope > 0.0 && Abs(a) <= Abs(b)
    ensures c.Feedforward(a) <= c.Feedforward(b)
  {
    MulOrder(c.slope, Abs(a), Abs(b));
  }

  /** A valid configuration has feedforward within the output range at every speed the controller commands. */
  lemma FeedforwardInRange(c: Config, speed: real)
    requires c.Valid() && c.minSpeed <= Abs(speed) <= c.maxSpeed
    ensures 0.0 <= c.Feedforward(speed) <= c.outMax
  {
    hide Config.Feedforward;
    FeedforwardMonotone(c, c.minSpeed, speed);
    FeedforwardMonotone(c, speed, c.maxSpeed);
  }

  datatype Reason =
    | NoFreeze | GainDisabled | ZeroCommand | FeedbackStale | Wheelspin | DirectionUnavailable | DirectionMismatch
    | ArbitrationUnavailable | OutputNotSelected | InvalidDt | AntiWindup | NoCommand | InvalidCommand

  /** Highest to lowest priority. */
  const PRECEDENCE: seq<Reason> := [
    NoCommand, InvalidCommand, ZeroCommand, FeedbackStale, Wheelspin, DirectionUnavailable, DirectionMismatch,
    ArbitrationUnavailable, OutputNotSelected, InvalidDt, AntiWindup, GainDisabled]

  datatype Saturation = Upper | Lower | Unsaturated

  datatype Inputs = Inputs(
    command: Option<(Num, Num)>, commandTime: Option<real>, motionSpeed: Num, motionTime: Option<real>,
    edgeRate: Num, encoderTime: Option<real>, sampleTime: Option<real>, previousSample: Option<real>, pendingDirection: int,
    wheelspinSince: Option<real>, adapterOutput: Option<(real, real)>, adapterTime: Option<real>,
    muxOutput: Option<(real, real)>, muxTime: Option<real>, integrator: real)

  // ---- the quantities of one cycle

  predicate HasCommand(c: Config, s: Inputs, now: real) {
    s.command.Some? && s.commandTime.Some? && now - s.commandTime.value <= c.commandTimeout
  }

  predicate FiniteCommand(s: Inputs) {
    s.command.Some? && s.command.value.0.Finite? && s.command.value.1.Finite?
  }

  function Speed(s: Inputs): real {
    if FiniteCommand(s) then s.command.value.0.r else 0.0
  }

  function Sign(r: real): int { if r > 0.0 then 1 else -1 }

  function EffectiveSpeed(c: Config, speed: real): real {
    Sign(speed) as real * Min(c.maxSpeed, Max(Abs(speed), c.minSpeed))
  }

  function MeasuredSpeed(c: Config, s: Inputs): real {
    if s.edgeRate.Finite? then Abs(s.edgeRate.r) * c.metresPerEdge else 0.0
  }

  function SpeedError(c: Config, s: Inputs): real {
    Abs(EffectiveSpeed(c, Speed(s))) - Abs(MeasuredSpeed(c, s))
  }

  predicate Stale(value: Num, at: Option<real>, now: real, timeout: real) {
    at.None? || value.NonFinite? || now - at.value > timeout
  }

  function Proportional(c: Config, s: Inputs, now: real): real {
    if Stale(s.edgeRate, s.encoderTime, now, c.encoderTimeout) then 0.0 else c.kp * SpeedError(c, s)
  }

  /** The wheel turns much faster than the vehicle moves, on fresh sensors. */
  predicate Spinning(c: Config, s: Inputs, now: real) {
    && !Stale(s.edgeRate, s.encoderTime, now, c.encoderTimeout)
    && !Stale(s.motionSpeed, s.motionTime, now, c.motionTimeout)
    && MeasuredSpeed(c, s) > c.spinRatio * Abs(s.motionSpeed.r)
    && MeasuredSpeed(c, s) - Abs(s.motionSpeed.r) > c.spinExcess
  }

  predicate SpinQualified(c: Config, s: Inputs, now: real) {
    Spinning(c, s, now) && s.wheelspinSince.Some? && now - s.wheelspinSince.value + SPIN_SLACK >= c.spinQualification
  }

  function IntegrationDt(s: Inputs): Option<real> {
    if s.sampleTime.None? || s.previousSample.None? then None
    else
      var dt := s.sampleTime.value - s.previousSample.value;
      if dt <= 0.0 || dt > MAX_INTEGRATION_DT then None else Some(dt)
  }

  predicate Arbitrated(c: Config, s: Inputs, now: real)
    requires c.rate > 0.0
  {
    && s.adapterOutput.Some? && s.adapterTime.Some? && s.muxOutput.Some? && s.muxTime.Some?
    && now - s.adapterTime.value <= 3.0 / c.rate && now - s.muxTime.value <= 3.0 / c.rate
  }

  predicate Selected(s: Inputs) {
    s.adapterOutput.Some? && s.muxOutput.Some? &&
    Abs(s.adapterOutput.value.0 - s.muxOutput.value.0) <= SELECTION_TOLERANCE &&
    Abs(s.adapterOutput.value.1 - s.muxOutput.value.1) <= SELECTION_TOLERANCE
  }

  function Saturate(c: Config, output: real): Saturation {
    if output > c.outMax then Upper else if output < c.outMin then Lower else Unsaturated
  }

  function Raw(c: Config, s: Inputs, now: real, integrator: real): real {
    c.Feedforward(EffectiveSpeed(c, Speed(s))) + Proportional(c, s, now) + integrator
  }

  function Candidate(c: Config, s: Inputs, dt: real): real {
    Clamp(-c.bound, c.bound, s.integrator + c.ki * SpeedError(c, s) * dt)
  }

  /** The output would be saturated and the error pushes it further out. */
  predicate DrivesFarther(c: Config, s: Inputs, now: real, integrator: real) {
    var sat := Saturate(c, Raw(c, s, now, integrator));
    (sat == Upper && SpeedError(c, s) > 0.0) || (sat == Lower && SpeedError(c, s) < 0.0)
  }

  /** Whether a reason holds, each on its own, regardless of the others. */
  predicate Applies(c: Config, s: Inputs, now: real, r: Reason)
    requires c.rate > 0.0
  {
    match r
    case NoCommand => !HasCommand(c, s, now)
    case InvalidCommand => !FiniteCommand(s)
    case ZeroCommand => Speed(s) == 0.0
    case FeedbackStale => Stale(s.edgeRate, s.encoderTime, now, 3.0 / c.rate)
    case Wheelspin => SpinQualified(c, s, now)
    case DirectionUnavailable => s.pendingDirection != -1 && s.pendingDirection != 1
    case DirectionMismatch => s.pendingDirection != Sign(Speed(s))
    case ArbitrationUnavailable => !Arbitrated(c, s, now)
    case OutputNotSelected => !Selected(s)
    case InvalidDt => IntegrationDt(s).None?
    case AntiWindup => IntegrationDt(s).Some? && DrivesFarther(c, s, now, Candidate(c, s, IntegrationDt(s).value))
    case GainDisabled => c.ki == 0.0
    case NoFreeze => false
  }

  /** The first reason of a list that holds, or none. */
  function FirstApplicable(c: Config, s: Inputs, now: real, reasons: seq<Reason>): (r: Reason)
    requires c.rate > 0.0
    ensures r != NoFreeze ==> r in reasons && Applies(c, s, now, r)
  {
    if reasons == [] then NoFreeze
    else if Applies(c, s, now, reasons[0]) then reasons[0]
    else FirstApplicable(c, s, now, reasons[1..])
  }

  lemma {:induction false} EarlierDoNotApply(c: Config, s: Inputs, now: real, reasons: seq<Reason>, k: nat)
    requires c.rate > 0.0 && k < |reasons| && FirstApplicable(c, s, now, reasons) == reasons[k]
    requires forall i, j :: 0 <= i < j < |reasons| ==> reasons[i] != reasons[j]
    requires reasons[k] != NoFreeze
    ensures forall i :: 0 <= i < k ==> !Applies(c, s, now, reasons[i])
  {
    if k > 0 {
      EarlierDoNotApply(c, s, now, reasons[1..], k - 1);
    }
  }

  lemma FirstOf(c: Config, s: Inputs, now: real, r: Reason, rest: seq<Reason>)
    requires c.rate > 0.0
    ensures FirstApplicable(c, s, now, [r] + rest) == if Applies(c, s, now, r) then r else FirstApplicable(c, s, now, rest)
  {
    assert ([r] + rest)[1..] == rest;
  }

  /** The declared order, spelled out as the cascade of tests that decides a cycle. */
  function Cascade(c: Config, s: Inputs, now: real): Reason
    requires c.rate > 0.0
  {
    if Applies(c, s, now, NoCommand) then NoCommand
    else if Applies(c, s, now, InvalidCommand) then InvalidCommand
    else if Applies(c, s, now, ZeroCommand) then ZeroCommand
    else if Applies(c, s, now, FeedbackStale) then FeedbackStale
    else if Applies(c, s, now, Wheelspin) then Wheelspin
    else if Applies(c, s, now, DirectionUnavailable) then DirectionUnavailable
    else if Applies(c, s, now, DirectionMismatch) then DirectionMismatch
    else if Applies(c, s, now, ArbitrationUnavailable) then ArbitrationUnavailable
    else if Applies(c, s, now, OutputNotSelected) then OutputNotSelected
    else if Applies(c, s, now, InvalidDt) then InvalidDt
    else if Applies(c, s, now, AntiWindup) then AntiWindup
    else if Applies(c, s, now, GainDisabled) then GainDisabled
    else NoFreeze
  }

  /** The part of the cascade that depends on feedback and arbitration. */
  function FeedbackCascade(c: Config, s: Inputs, now: real): Reason
    requires c.rate > 0.0
  {
    if Applies(c, s, now, FeedbackStale) then FeedbackStale
    else if Applies(c, s, now, Wheelspin) then Wheelspin
    else if Applies(c, s, now, DirectionUnavailable) then DirectionUnavailable
    else if Applies(c, s, now, DirectionMismatch) then DirectionMismatch
    else if Applies(c, s, now, ArbitrationUnavailable) then ArbitrationUnavailable
    else if Applies(c, s, now, OutputNotSelected) then OutputNotSelected
    else NoFreeze
  }

  lemma DrivingCascade(c: Config, s: Inputs, now: real)
    requires c.rate > 0.0 && HasCommand(c, s, now) && FiniteCommand(s) && Speed(s) != 0.0
    ensures var f, dt := FeedbackCascade(c, s, now), IntegrationDt(s);
            Cascade(c, s, now) ==
            if f != NoFreeze then f
            else if dt.None? then InvalidDt
            else if DrivesFarther(c, s, now, Candidate(c, s, dt.value)) then AntiWindup
            else if c.ki == 0.0 then GainDisabled
            else NoFreeze
  {
    hide Stale, SpinQualified, Arbitrated, Selected, IntegrationDt, DrivesFarther, Candidate;
  }

  lemma CascadeFollowsPrecedence(c: Config, s: Inputs, now: real)
    requires c.rate > 0.0
    ensures Cascade(c, s, now) == FirstApplicable(c, s, now, PRECEDENCE)
  {
    hide Applies, FirstApplicable;
    var none: seq<Reason> := [];
    FirstOf(c, s, now, GainDisabled, none);
    var r11 := [GainDisabled] + none;
    FirstOf(c, s, now, AntiWindup, r11);
    var r10 := [AntiWindup] + r11;
    FirstOf(c, s, now, InvalidDt, r10);
    var r9 := [InvalidDt] + r10;
    FirstOf(c, s, now, OutputNotSelected, r9);
    var r8 := [OutputNotSelected] + r9;
    FirstOf(c, s, now, ArbitrationUnavailable, r8);
    var r7 := [ArbitrationUnavailable] + r8;
    FirstOf(c, s, now, DirectionMismatch, r7);
    var r6 := [DirectionMismatch] + r7;
    FirstOf(c, s, now, DirectionUnavailable, r6);
    var r5 := [DirectionUnavailable] + r6;
    FirstOf(c, s, now, Wheelspin, r5);
    var r4 := [Wheelspin] + r5;
    FirstOf(c, s, now, FeedbackStale, r4);
    var r3 := [FeedbackStale] + r4;
    FirstOf(c, s, now, ZeroCommand, r3);
    var r2 := [ZeroCommand] + r3;
    FirstOf(c, s, now, InvalidCommand, r2);
    var r1 := [InvalidCommand] + r2;
    FirstOf(c, s, now, NoCommand, r1);
    var r0 := [NoCommand] + r1;
    assert r0 == PRECEDENCE;
  }

  // ---- which way the feedback acts

  /** The commanded speed's magnitude, brought between the minimum moving and the maximum commanded speed. */
  ghost function Target(c: Config, v: real): real {
    if Abs(v) > c.maxSpeed then c.maxSpeed else if Abs(v) < c.minSpeed then c.minSpeed else Abs(v)
  }

  ghost predicate FreshMeasurement(c: Config, s: Inputs, now: real) {
    s.edgeRate.Finite? && s.encoderTime.Some? && now - s.encoderTime.value <= c.encoderTimeout
  }

  ghost function Bounded(c: Config, x: real): real {
    if x > c.outMax then c.outMax else if x < c.outMin then c.outMin else x
  }

  /**
   The output against `open`, the feedforward plus the integrator: the same without a fresh measurement, never less
   while the wheel turns slower than the target, never more while it turns faster, by the gain unless at a limit.
   */
  ghost predicate CorrectsBy(c: Config, output: real, open: real, target: real, measured: Option<real>) {
    && c.outMin <= output <= c.outMax
    && (measured.None? ==> output == Bounded(c, open))
    && (measured.Some? && measured.value <= target ==> output >= Bounded(c, open))
    && (measured.Some? && measured.value >= target ==> output <= Bounded(c, open))
    && (measured.Some? && c.outMin < output < c.outMax ==> output == open + c.kp * (target - measured.value))
  }

  ghost predicate Corrects(c: Config, s: Inputs, now: real, integrator: real, throttle: real)
    requires FiniteCommand(s)
  {
    var v := s.command.value.0.r;
    CorrectsBy(c, if v > 0.0 then throttle else -throttle, Open(c, v) + integrator, Target(c, v), Measured(c, s, now))
  }

  /** The feedforward for a commanded speed. */
  ghost function Open(c: Config, v: real): real {
    c.slope * Target(c, v) + c.intercept
  }

  ghost function Measured(c: Config, s: Inputs, now: real): Option<real> {
    if FreshMeasurement(c, s, now) then Some(Abs(s.edgeRate.r) * c.metresPerEdge) else None
  }

  ghost function Push(c: Config, target: real, measured: Option<real>): real {
    if measured.Some? then c.kp * (target - measured.value) else 0.0
  }

  lemma ThrottleCorrects(c: Config, s: Inputs, now: real, integrator: real, throttle: real)
    requires c.Valid() && FiniteCommand(s) && Speed(s) != 0.0
    requires throttle == Sign(Speed(s)) as real * Clamp(c.outMin, c.outMax, Raw(c, s, now, integrator))
    ensures Corrects(c, s, now, integrator, throttle)
  {
    SignTimes(Speed(s), Clamp(c.outMin, c.outMax, Raw(c, s, now, integrator)));
    RawCorrects(c, s, now, integrator);
    SignedCorrects(c, s, now, integrator, throttle, Clamp(c.outMin, c.outMax, Raw(c, s, now, integrator)));
    hide *;
  }

  lemma RawCorrects(c: Config, s: Inputs, now: real, integrator: real)
    requires c.Valid() && FiniteCommand(s) && Speed(s) != 0.0
    ensures CorrectsBy(c, Clamp(c.outMin, c.outMax, Raw(c, s, now, integrator)), Open(c, Speed(s)) + integrator, Target(c, Speed(s)),
                       Measured(c, s, now))
  {
    hide *;
    RawIs(c, s, now, integrator);
    OutputCorrects(c, Raw(c, s, now, integrator), Open(c, Speed(s)) + integrator, Target(c, Speed(s)), Measured(c, s, now));
  }

  lemma SignedCorrects(c: Config, s: Inputs, now: real, integrator: real, throttle: real, output: real)
    requires FiniteCommand(s) && CorrectsBy(c, output, Open(c, Speed(s)) + integrator, Target(c, Speed(s)), Measured(c, s, now))
    requires output == if Speed(s) > 0.0 then throttle else -throttle
    ensures Corrects(c, s, now, integrator, throttle)
  {
    hide CorrectsBy, Open, Target, Measured;
  }

  lemma SignTimes(speed: real, x: real)
    ensures (if speed > 0.0 then Sign(speed) as real * x else -(Sign(speed) as real * x)) == x
  {
  }

  lemma OutputCorrects(c: Config, raw: real, open: real, target: real, measured: Option<real>)
    requires c.Valid() && raw == open + Push(c, target, measured)
    ensures CorrectsBy(c, Clamp(c.outMin, c.outMax, raw), open, target, measured)
  {
    if measured.Some? {
      PushSign(c.kp, target, measured.value);
    }
    ClampBy(c.outMin, c.outMax, open, Push(c, target, measured));
    hide Clamp;
  }

  /** How much slower than the target the wheel turns. */
  ghost function ErrorTo(c: Config, s: Inputs, target: real): real
    requires s.edgeRate.Finite?
  {
    target - Abs(s.edgeRate.r) * c.metresPerEdge
  }

  lemma PushSign(gain: real, target: real, measured: real)
    requires gain > 0.0
    ensures (measured <= target ==> gain * (target - measured) >= 0.0) && (measured >= target ==> gain * (target - measured) <= 0.0)
  {
    SignOfProduct(gain, target - measured);
  }

  lemma RawIs(c: Config, s: Inputs, now: real, integrator: real)
    requires c.Valid() && FiniteCommand(s) && Speed(s) != 0.0
    ensures Raw(c, s, now, integrator) == Open(c, Speed(s)) + integrator + Push(c, Target(c, Speed(s)), Measured(c, s, now))
  {
    hide *;
    TargetIsEffective(c, Speed(s));
    FeedforwardIs(c, Speed(s));
    ProportionalIs(c, s, now);
    assert Raw(c, s, now, integrator) == c.Feedforward(EffectiveSpeed(c, Speed(s))) + Proportional(c, s, now) + integrator by {
      RawSum(c, s, now, integrator);
    }
  }

  lemma RawSum(c: Config, s: Inputs, now: real, integrator: real)
    ensures Raw(c, s, now, integrator) == c.Feedforward(EffectiveSpeed(c, Speed(s))) + Proportional(c, s, now) + integrator
  {
  }

  lemma FeedforwardIs(c: Config, speed: real)
    requires c.Valid() && speed != 0.0
    ensures c.Feedforward(EffectiveSpeed(c, speed)) == Open(c, speed)
  {
    TargetIsEffective(c, speed);
    hide EffectiveSpeed, Target, Config.Valid;
  }

  lemma ProportionalIs(c: Config, s: Inputs, now: real)
    requires c.Valid() && FiniteCommand(s) && Speed(s) != 0.0
    ensures Proportional(c, s, now) == Push(c, Target(c, Speed(s)), Measured(c, s, now))
  {
    if s.edgeRate.Finite? {
      ErrorIs(c, s);
    }
    hide EffectiveSpeed, SpeedError, Target, Config.Valid;
  }

  lemma ErrorIs(c: Config, s: Inputs)
    requires c.Valid() && FiniteCommand(s) && Speed(s) != 0.0 && s.edgeRate.Finite?
    ensures SpeedError(c, s) == ErrorTo(c, s, Target(c, Speed(s)))
  {
    TargetIsEffective(c, Speed(s));
    NonNegativeProduct(Abs(s.edgeRate.r), c.metresPerEdge);
    hide EffectiveSpeed, Target;
  }

  lemma ClampBy(lo: real, hi: real, open: real, push: real)
    requires lo <= hi
    ensures Clamp(lo, hi, open) == if open > hi then hi else if open < lo then lo else open
    ensures (push >= 0.0 ==> Clamp(lo, hi, open + push) >= Clamp(lo, hi, open))
    ensures (push <= 0.0 ==> Clamp(lo, hi, open + push) <= Clamp(lo, hi, open))
    ensures lo <= Clamp(lo, hi, open + push) <= hi
    ensures lo < Clamp(lo, hi, open + push) < hi ==> Clamp(lo, hi, open + push) == open + push
  {
  }

  lemma TargetIsEffective(c: Config, speed: real)
    requires c.Valid() && speed != 0.0
    ensures Abs(EffectiveSpeed(c, speed)) == Target(c, speed) > 0.0
  {
  }

  lemma NonNegativeProduct(a: real, b: real)
    requires a >= 0.0 && b >= 0.0
    ensures a * b >= 0.0
  {
  }

  lemma SignOfProduct(a: real, b: real)
    requires a >= 0.0
    ensures (b >= 0.0 ==> a * b >= 0.0) && (b <= 0.0 ==> a * b <= 0.0)
  {
    if b <= 0.0 {
      NonNegativeProduct(a, -b);
    }
  }

  /** The integrator's step: by gain, error and the time between two samples, upwards while the wheel is too slow. */
  ghost predicate IntegratesBy(c: Config, before: real, after: real, error: real, dt: real) {
    && -c.bound <= after <= c.bound && 0.0 < dt <= 0.5
    && (error >= 0.0 ==> after >= before)
    && (error <= 0.0 ==> after <= before)
    && (-c.bound < after < c.bound ==> after == before + c.ki * error * dt)
  }

  ghost predicate Integrates(c: Config, s: Inputs, after: real)
    requires FiniteCommand(s)
  {
    s.edgeRate.Finite? && s.sampleTime.Some? && s.previousSample.Some? &&
    IntegratesBy(c, s.integrator, after, ErrorTo(c, s, Target(c, s.command.value.0.r)), s.sampleTime.value - s.previousSample.value)
  }

  lemma CandidateIntegrates(c: Config, s: Inputs)
    requires c.Valid() && FiniteCommand(s) && Speed(s) != 0.0 && s.edgeRate.Finite? && -c.bound <= s.integrator <= c.bound
    requires IntegrationDt(s).Some?
    ensures Integrates(c, s, Candidate(c, s, IntegrationDt(s).value))
  {
    hide Target, Candidate, ErrorTo, IntegratesBy, Config.Valid, SpeedError;
    ErrorIs(c, s);
    StepIntegrates(c, s, IntegrationDt(s).value, ErrorTo(c, s, Target(c, Speed(s))));
  }

  lemma StepIntegrates(c: Config, s: Inputs, dt: real, error: real)
    requires c.Valid() && error == SpeedError(c, s) && 0.0 < dt <= 0.5 && -c.bound <= s.integrator <= c.bound
    ensures IntegratesBy(c, s.integrator, Candidate(c, s, dt), error, dt)
  {
    hide SpeedError;
    PushSign2(c.ki, error, dt);
    ClampBy(-c.bound, c.bound, s.integrator, c.ki * error * dt);
    hide Clamp;
  }

  lemma UnfrozenIntegrates(c: Config, s: Inputs, now: real)
    requires c.Valid() && FiniteCommand(s) && Speed(s) != 0.0 && -c.bound <= s.integrator <= c.bound
    requires HasCommand(c, s, now) && Cascade(c, s, now) == NoFreeze
    ensures IntegrationDt(s).Some? && Integrates(c, s, Candidate(c, s, IntegrationDt(s).value))
  {
    hide Integrates, Candidate, DrivesFarther, SpinQualified, Arbitrated, Selected, Config.Valid;
    CandidateIntegrates(c, s);
  }

  /** Everything the integrator waits for, in terms of the inputs. */
  ghost predicate AllClear(c: Config, s: Inputs, now: real)
    requires c.rate > 0.0
  {
    && FiniteCommand(s) && s.command.value.0.r != 0.0 && s.commandTime.Some? && now - s.commandTime.value <= c.commandTimeout
    && s.edgeRate.Finite? && s.encoderTime.Some? && now - s.encoderTime.value <= 3.0 / c.rate
    && !SpinQualified(c, s, now)
    && s.pendingDirection == (if s.command.value.0.r > 0.0 then 1 else -1)
    && s.adapterOutput.Some? && s.adapterTime.Some? && now - s.adapterTime.value <= 3.0 / c.rate
    && s.muxOutput.Some? && s.muxTime.Some? && now - s.muxTime.value <= 3.0 / c.rate
    && Near(s.adapterOutput.value.0, s.muxOutput.value.0) && Near(s.adapterOutput.value.1, s.muxOutput.value.1)
    && s.sampleTime.Some? && s.previousSample.Some? && 0.0 < s.sampleTime.value - s.previousSample.value <= 0.5
    && c.ki != 0.0
    && !DrivesFarther(c, s, now, Candidate(c, s, s.sampleTime.value - s.previousSample.value))
  }

  ghost predicate Near(a: real, b: real) {
    -0.000000001 <= a - b <= 0.000000001
  }

  /** No reason is given exactly when everything is clear. */
  lemma ClearExactly(c: Config, s: Inputs, now: real)
    requires c.rate > 0.0
    ensures FirstApplicable(c, s, now, PRECEDENCE) == NoFreeze <==> AllClear(c, s, now)
  {
    CascadeFollowsPrecedence(c, s, now);
    hide FirstApplicable, SpinQualified, DrivesFarther, Candidate;
  }

  lemma PushSign2(gain: real, error: real, dt: real)
    requires gain >= 0.0 && dt > 0.0
    ensures (error >= 0.0 ==> gain * error * dt >= 0.0) && (error <= 0.0 ==> gain * error * dt <= 0.0)
  {
    SignOfProduct(gain, error);
    SignOfProduct(dt, gain * error);
  }

  // ---- the controller object

  datatype Mode = Silence | Brake | Forward | Reverse

  datatype Decision = Decision(publish: bool, mode: Mode, throttle: real, saturation: Saturation, integrator: real, reason: Reason)

  /** The live-tunable parameters; None leaves a parameter as it is. */
  datatype Updates = Updates(
    maxSpeed: Option<Num>, slope: Option<Num>, intercept: Option<Num>, outMax: Option<Num>, kp: Option<Num>, ki: Option<Num>)

  predicate FiniteUpdate(o: Option<Num>) { o.Some? ==> o.value.Finite? }

  function Updated(o: Option<Num>, current: real): real {
    if o.Some? && o.value.Finite? then o.value.r else current
  }

  ghost predicate Monotone(stamps: seq<real>) {
    forall i, j :: 0 <= i < j < |stamps| ==> stamps[i] <= stamps[j]
  }

  /** Integrated intervals follow one another without overlap. */
  ghost predicate Disjoint(intervals: seq<(real, real)>) {
    && (forall i :: 0 <= i < |intervals| ==> intervals[i].0 < intervals[i].1)
    && (forall i, j :: 0 <= i < j < |intervals| ==> intervals[i].1 <= intervals[j].0)
  }

  /** Under nondecreasing stamps: nothing integrated so far reaches past the sample to integrate from. */
  ghost predicate Ordered(intervals: seq<(real, real)>, stamps: seq<real>, sample: Option<real>, previous: Option<real>) {
    && Disjoint(intervals)
    && (sample.Some? ==> stamps != [] && sample.value == stamps[|stamps| - 1])
    && (previous.Some? ==> stamps != [] && previous.value <= stamps[|stamps| - 1])
    && (forall i :: 0 <= i < |intervals| ==>
          stamps != [] && intervals[i].1 <= stamps[|stamps| - 1] && (previous.Some? ==> intervals[i].1 <= previous.value))
  }

  lemma NextStamp(intervals: seq<(real, real)>, stamps: seq<real>, sample: Option<real>, previous: Option<real>, next: Option<real>)
    requires Ordered(intervals, stamps, sample, previous)
    requires next.Some? ==> Monotone(stamps + [next.value])
    ensures Ordered(intervals, if next.Some? then stamps + [next.value] else stamps, next, previous)
  {
    if next.Some? && stamps != [] {
      var all := stamps + [next.value];
      assert all[|stamps| - 1] <= all[|stamps|];
    }
  }

  /** Moving on to the latest sample, having integrated up to it or not. */
  lemma NextInterval(intervals: seq<(real, real)>, stamps: seq<real>, sample: Option<real>, previous: Option<real>, integrated: bool)
    requires Ordered(intervals, stamps, sample, previous)
    requires integrated ==> sample.Some? && previous.Some? && previous.value < sample.value
    ensures Ordered(if integrated then intervals + [(previous.value, sample.value)] else intervals, stamps, sample, sample)
  {
  }

  predicate FiniteUpdates(u: Updates) {
    FiniteUpdate(u.maxSpeed) && FiniteUpdate(u.slope) && FiniteUpdate(u.intercept) &&
    FiniteUpdate(u.outMax) && FiniteUpdate(u.kp) && FiniteUpdate(u.ki)
  }

  /** The configuration with the given live parameters replaced; all others stay. */
  function Retuned(c: Config, u: Updates): Config
    requires FiniteUpdates(u)
  {
    c.(maxSpeed := Updated(u.maxSpeed, c.maxSpeed), slope := Updated(u.slope, c.slope),
       intercept := Updated(u.intercept, c.intercept), outMax := Updated(u.outMax, c.outMax),
       kp := Updated(u.kp, c.kp), ki := Updated(u.ki, c.ki))
  }

  /** The cycle with index `k` is the first of the latest run of cycles in which the speed excess held. */
  ghost predicate HeldSince(cycles: seq<(real, bool)>, k: nat) {
    k < |cycles| && (k > 0 ==> !cycles[k - 1].1) && forall i :: k <= i < |cycles| ==> cycles[i].1
  }

  /** `since` is the time of that cycle, or none when the excess did not hold in the last one. */
  ghost predicate SpinHistory(cycles: seq<(real, bool)>, since: Option<real>) {
    match since
    case None => cycles == [] || !cycles[|cycles| - 1].1
    case Some(t) => exists k: nat :: HeldSince(cycles, k) && cycles[k].0 == t
  }

  lemma NextCycle(cycles: seq<(real, bool)>, since: Option<real>, now: real, held: bool)
    requires SpinHistory(cycles, since)
    ensures SpinHistory(cycles + [(now, held)], if !held then None else if since.None? then Some(now) else since)
  {
    var all := cycles + [(now, held)];
    if held && since.Some? {
      var k: nat :| HeldSince(cycles, k) && cycles[k].0 == since.value;
      assert HeldSince(all, k) && all[k].0 == since.value;
    } else if held {
      assert HeldSince(all, |cycles|) && all[|cycles|].0 == now;
    }
  }

  lemma HeldSinceIsOne(cycles: seq<(real, bool)>, j: nat, k: nat)
    requires HeldSince(cycles, j) && HeldSince(cycles, k)
    ensures j == k
  {
  }

  /** The excess has held in more than one cycle, from one that is at least the qualification time ago. */
  ghost predicate HeldLong(cycles: seq<(real, bool)>, now: real, qualification: real) {
    exists k: nat :: HeldSince(cycles, k) && k + 1 < |cycles| && now - cycles[k].0 + SPIN_SLACK >= qualification
  }

  lemma GuardMeansHeldLong(cycles: seq<(real, bool)>, since: Option<real>, now: real, held: bool, qualification: real)
    requires SpinHistory(cycles, since)
    ensures HeldLong(cycles + [(now, held)], now, qualification) <==> held && since.Some? && now - since.value + SPIN_SLACK >= qualification
  {
    var all := cycles + [(now, held)];
    if held && since.Some? {
      var j: nat :| HeldSince(cycles, j) && cycles[j].0 == since.value;
      assert HeldSince(all, j) && all[j].0 == since.value;
      if k: nat :| HeldSince(all, k) && k + 1 < |all| && now - all[k].0 + SPIN_SLACK >= qualification {
        HeldSinceIsOne(all, j, k);
      }
    } else if held {
      assert HeldSince(all, |cycles|);
      if k: nat :| HeldSince(all, k) && k + 1 < |all| {
        HeldSinceIsOne(all, |cycles|, k);
      }
    } else {
      assert !all[|cycles|].1;
    }
  }

  class Adapter {
    var config: Config
    var command: Option<(Num, Num)>
    var commandTime: Option<real>
    var motionSpeed: Num
    var motionTime: Option<real>
    var edgeRate: Num
    var encoderTime: Option<real>
    var sampleTime: Option<real>
    var previousSample: Option<real>
    var pendingDirection: int
    var wheelspinSince: Option<real>
    var adapterOutput: Option<(real, real)>
    var adapterTime: Option<real>
    var muxOutput: Option<(real, real)>
    var muxTime: Option<real>
    var integrator: real
    /** Encoder stamps in arrival order, and the stamp intervals that entered the integrator. */
    ghost var stamps: seq<real>
    ghost var intervals: seq<(real, real)>
    /** When each cycle was, and whether the measured speed exceeded the observed one in it. */
    ghost var cycles: seq<(real, bool)>

    ghost function View(): Inputs
      reads this
    {
      Inputs(command, commandTime, motionSpeed, motionTime, edgeRate, encoderTime, sampleTime, previousSample, pendingDirection,
             wheelspinSince, adapterOutput, adapterTime, muxOutput, muxTime, integrator)
    }

    ghost predicate Valid()
      reads this
    {
      && config.Valid() && -config.bound <= integrator <= config.bound
      && (Monotone(stamps) ==> Ordered(intervals, stamps, sampleTime, previousSample))
      && SpinHistory(cycles, wheelspinSince)
    }

    constructor (config: Config)
      requires config.Valid()
      ensures Valid() && this.config == config && integrator == 0.0 && intervals == [] && stamps == [] && cycles == []
    {
      this.config := config;
      command, commandTime, motionSpeed, motionTime := None, None, Finite(0.0), None;
      edgeRate, encoderTime, sampleTime, previousSample := Finite(0.0), None, None, None;
      pendingDirection, wheelspinSince := 0, None;
      adapterOutput, adapterTime, muxOutput, muxTime := None, None, None, None;
      integrator := 0.0;
      stamps, intervals, cycles := [], [], [];
    }

    /** Validated, atomic retuning; changing the integral gain clears the integrator and the sample to integrate from. */
    method SetLiveParameters(u: Updates) returns (ok: bool)
      requires Valid()
      modifies this`config, this`integrator, this`previousSample
      ensures Valid()
      ensures ok <==> FiniteUpdates(u) && Retuned(old(config), u).Valid()
      ensures ok ==> config == Retuned(old(config), u)
      ensures !ok ==> config == old(config) && integrator == old(integrator) && previousSample == old(previousSample)
      ensures ok && u.ki.Some? ==> integrator == 0.0 && previousSample == None
      ensures ok && u.ki.None? ==> integrator == old(integrator) && previousSample == old(previousSample)
    {
      if !FiniteUpdates(u) {
        return false;
      }
      var candidate := Retuned(config, u);
      if !candidate.Valid() {
        return false;
      }
      config := candidate;
      if u.ki.Some? {
        integrator := 0.0;
        previousSample := None;
      }
      return true;
    }

    method UpdateCommand(speed: Num, lateral: Num, now: real)
      requires Valid()
      modifies this`command, this`commandTime
      ensures Valid() && command == Some((speed, lateral)) && commandTime == Some(now)
    {
      command, commandTime := Some((speed, lateral)), Some(now);
    }

    method InvalidateCommand()
      requires Valid()
      modifies this`command, this`commandTime
      ensures Valid() && command == None && commandTime == None
    {
      command, commandTime := None, None;
    }

    method UpdateMotion(speed: Num, now: real)
      requires Valid()
      modifies this`motionSpeed, this`motionTime
      ensures Valid() && motionSpeed == speed && motionTime == Some(now)
    {
      motionSpeed, motionTime := speed, Some(now);
    }

    method UpdateEncoder(rate: Num, direction: int, now: real, sample: Option<real>)
      requires Valid()
      modifies this`edgeRate, this`encoderTime, this`sampleTime, this`pendingDirection, this`stamps
      ensures Valid() && edgeRate == rate && encoderTime == Some(now) && sampleTime == sample && pendingDirection == direction
      ensures stamps == if sample.Some? then old(stamps) + [sample.value] else old(stamps)
    {
      hide Ordered, Config.Valid;
      edgeRate, encoderTime, pendingDirection := rate, Some(now), direction;
      if sample.Some? {
        ShorterMonotone(stamps, sample.value);
      }
      if Monotone(stamps) && (sample.Some? ==> Monotone(stamps + [sample.value])) {
        NextStamp(intervals, stamps, sampleTime, previousSample, sample);
      }
      sampleTime := sample;
      if sample.Some? {
        stamps := stamps + [sample.value];
      }
    }

    method UpdateAdapterOutput(linear: real, angular: real, now: real)
      requires Valid()
      modifies this`adapterOutput, this`adapterTime
      ensures Valid() && adapterOutput == Some((linear, angular)) && adapterTime == Some(now)
    {
      adapterOutput, adapterTime := Some((linear, angular)), Some(now);
    }

    method UpdateMuxOutput(linear: real, angular: real, now: real)
      requires Valid()
      modifies this`muxOutput, this`muxTime
      ensures Valid() && muxOutput == Some((linear, angular)) && muxTime == Some(now)
    {
      muxOutput, muxTime := Some((linear, angular)), Some(now);
    }

    /** Consumes the interval since the last cycle that asked. */
    method TakeIntegrationDt() returns (dt: Option<real>)
      modifies this`previousSample
      ensures dt == IntegrationDt(old(View())) && previousSample == sampleTime
    {
      var previous := previousSample;
      previousSample := sampleTime;
      if sampleTime.None? || previous.None? {
        return None;
      }
      var d := sampleTime.value - previous.value;
      if d <= 0.0 || d > MAX_INTEGRATION_DT {
        return None;
      }
      return Some(d);
    }

    /** The guard trips exactly when the excess has held in every cycle for the qualification time. */
    method WheelspinGuard(now: real) returns (guard: bool)
      requires SpinHistory(cycles, wheelspinSince)
      modifies this`wheelspinSince, this`cycles
      ensures guard == SpinQualified(config, old(View()), now)
      ensures cycles == old(cycles) + [(now, Spinning(config, old(View()), now))] && SpinHistory(cycles, wheelspinSince)
      ensures guard <==> HeldLong(cycles, now, config.spinQualification)
      ensures wheelspinSince == if !Spinning(config, old(View()), now) then None else if old(wheelspinSince).None? then Some(now) else old(wheelspinSince)
    {
      hide SpinHistory, HeldLong;
      NextCycle(cycles, wheelspinSince, now, Spinning(config, View(), now));
      GuardMeansHeldLong(cycles, wheelspinSince, now, Spinning(config, View(), now), config.spinQualification);
      cycles := cycles + [(now, Spinning(config, View(), now))];
      var measured := if edgeRate.Finite? then Abs(edgeRate.r) * config.metresPerEdge else 0.0;
      var isFresh := !Stale(edgeRate, encoderTime, now, config.encoderTimeout) && !Stale(motionSpeed, motionTime, now, config.motionTimeout);
      if !(isFresh && measured > config.spinRatio * Abs(motionSpeed.r) && measured - Abs(motionSpeed.r) > config.spinExcess) {
        wheelspinSince := None;
        return false;
      }
      if wheelspinSince.None? {
        wheelspinSince := Some(now);
        return false;
      }
      return now - wheelspinSince.value + SPIN_SLACK >= config.spinQualification;
    }

    /** The reasons that depend on feedback and arbitration, in order. */
    method FeedbackReason(now: real, speed: real, guard: bool, ghost s: Inputs) returns (r: Reason)
      requires config.rate > 0.0 && speed != 0.0 && speed == Speed(s) && guard == SpinQualified(config, s, now)
      requires s == View().(wheelspinSince := s.wheelspinSince, previousSample := s.previousSample)
      ensures r == FeedbackCascade(config, s, now)
    {
      var timeout := 3.0 / config.rate;
      if encoderTime.None? || edgeRate.NonFinite? || now - encoderTime.value > timeout {
        return FeedbackStale;
      }
      if guard {
        return Wheelspin;
      }
      var direction := if speed > 0.0 then 1 else -1;
      if pendingDirection != -1 && pendingDirection != 1 {
        return DirectionUnavailable;
      }
      if pendingDirection != direction {
        return DirectionMismatch;
      }
      if !(adapterOutput.Some? && adapterTime.Some? && muxOutput.Some? && muxTime.Some? &&
           now - adapterTime.value <= timeout && now - muxTime.value <= timeout) {
        return ArbitrationUnavailable;
      }
      if !(Abs(adapterOutput.value.0 - muxOutput.value.0) <= SELECTION_TOLERANCE &&
           Abs(adapterOutput.value.1 - muxOutput.value.1) <= SELECTION_TOLERANCE) {
        return OutputNotSelected;
      }
      return NoFreeze;
    }
  
    /** What a cycle that drives does to the integrator and reports as its reason. */
    method Integrate(now: real, dt: Option<real>, feedback: Reason, error: real, base: real, ghost s: Inputs) returns (r: Reason)
      requires -config.bound <= integrator <= config.bound && s.integrator == integrator
      requires error == SpeedError(config, s) && forall x :: Raw(config, s, now, x) == base + x
      modifies this`integrator
      ensures -config.bound <= integrator <= config.bound
      ensures r == (if feedback != NoFreeze then feedback
                    else if dt.None? then InvalidDt
                    else if DrivesFarther(config, s, now, Candidate(config, s, dt.value)) then AntiWindup
                    else if config.ki == 0.0 then GainDisabled
                    else NoFreeze)
      ensures r != NoFreeze ==> integrator == old(integrator)
      ensures r == NoFreeze ==> dt.Some? && integrator == Candidate(config, s, dt.value)
    {
      hide SpeedError, Raw;
      r := feedback;
      if r == NoFreeze {
        if dt.None? {
          r := InvalidDt;
        } else {
          ZeroGain(config.ki, error, dt.value);
          var candidate := Clamp(-config.bound, config.bound, integrator + config.ki * error * dt.value);
          assert candidate == Candidate(config, s, dt.value);
          var saturation := Saturate(config, base + candidate);
          if (saturation == Upper && error > 0.0) || (saturation == Lower && error < 0.0) {
            r := AntiWindup;
          } else {
            integrator := candidate;
          }
        }
      }
      if r == NoFreeze && config.ki == 0.0 {
        r := GainDisabled;
      }
    }

    /** The speed error, and feedforward plus the proportional term. */
    method ErrorAndBase(now: real, speed: real) returns (error: real, base: real)
      requires speed == Speed(View())
      ensures error == SpeedError(config, View()) && forall x :: Raw(config, View(), now, x) == base + x
    {
      hide EffectiveSpeed, Config.Feedforward, Stale;
      var measured := if edgeRate.Finite? then Abs(edgeRate.r) * config.metresPerEdge else 0.0;
      error := Abs(EffectiveSpeed(config, speed)) - Abs(measured);
      var proportional := if Stale(edgeRate, encoderTime, now, config.encoderTimeout) then 0.0 else config.kp * error;
      base := config.Feedforward(EffectiveSpeed(config, speed)) + proportional;
    }

    /** A cycle with a fresh, finite, nonzero command. */
    method Drive(now: real, speed: real) returns (d: Decision)
      requires Valid() && HasCommand(config, View(), now) && FiniteCommand(View()) && speed == Speed(View()) && speed != 0.0
      modifies this`wheelspinSince, this`previousSample, this`integrator, this`intervals, this`cycles
      ensures Valid() && d.publish && d.reason == Cascade(config, old(View()), now)
      ensures cycles == old(cycles) + [(now, Spinning(config, old(View()), now))]
      ensures d.reason != NoFreeze ==> integrator == old(integrator) && intervals == old(intervals)
      ensures d.reason == NoFreeze ==>
                && IntegrationDt(old(View())).Some? && integrator == Candidate(config, old(View()), IntegrationDt(old(View())).value)
                && intervals == old(intervals) + [(old(previousSample).value, sampleTime.value)]
      ensures d.integrator == integrator && d.mode == (if speed > 0.0 then Forward else Reverse)
      ensures d.throttle == Sign(speed) as real * Clamp(config.outMin, config.outMax, Raw(config, old(View()), now, integrator))
      ensures d.saturation == Saturate(config, Raw(config, old(View()), now, integrator))
      ensures -config.outMax <= d.throttle <= config.outMax && Corrects(config, old(View()), now, integrator, d.throttle)
      ensures d.reason == NoFreeze ==> Integrates(config, old(View()), integrator)
    {
      hide Corrects, Integrates, SpinHistory, Ordered, Config.Valid, Config.Feedforward, Saturate, Clamp, EffectiveSpeed, Spinning, IntegrationDt, Candidate, Cascade, Raw;
      ghost var s := View();
      var error, base := ErrorAndBase(now, speed);
      var reason := UpdateIntegrator(now, speed, error, base);
      var raw := base + integrator;
      var sign := if speed > 0.0 then 1 else -1;
      d := Decision(true, if speed > 0.0 then Forward else Reverse, sign as real * Clamp(config.outMin, config.outMax, raw),
                    Saturate(config, raw), integrator, reason);
      ThrottleCorrects(config, s, now, integrator, d.throttle);
      PositiveOutput(config);
      ThrottleBounded(config, sign, raw);
      if reason == NoFreeze {
        UnfrozenIntegrates(config, s, now);
      }
    }

    /** The wheelspin guard, the interval, the freeze reason and the integrator of a moving cycle. */
    method UpdateIntegrator(now: real, speed: real, error: real, base: real) returns (reason: Reason)
      requires Valid() && HasCommand(config, View(), now) && FiniteCommand(View()) && speed == Speed(View()) && speed != 0.0
      requires error == SpeedError(config, View()) && forall x :: Raw(config, View(), now, x) == base + x
      modifies this`wheelspinSince, this`previousSample, this`integrator, this`intervals, this`cycles
      ensures Valid() && reason == Cascade(config, old(View()), now)
      ensures cycles == old(cycles) + [(now, Spinning(config, old(View()), now))]
      ensures reason != NoFreeze ==> integrator == old(integrator) && intervals == old(intervals)
      ensures reason == NoFreeze ==>
                && IntegrationDt(old(View())).Some? && integrator == Candidate(config, old(View()), IntegrationDt(old(View())).value)
                && intervals == old(intervals) + [(old(previousSample).value, sampleTime.value)]
    {
      hide SpinHistory, Ordered, Config.Valid, Config.Feedforward, Saturate, Clamp, EffectiveSpeed, Spinning, SpinQualified, Candidate, DrivesFarther, Cascade, FeedbackCascade, SpeedError, Raw;
      PositiveRate(config);
      ghost var s := View();
      var guard := WheelspinGuard(now);
      var dt := TakeIntegrationDt();
      var feedback := FeedbackReason(now, speed, guard, s);
      DrivingCascade(config, s, now);
      reason := Integrate(now, dt, feedback, error, base, s);
      RecordInterval(s.previousSample, reason == NoFreeze);
    }

    /** Bookkeeping: the interval just integrated, if any. */
    ghost method RecordInterval(previous: Option<real>, integrated: bool)
      requires Monotone(stamps) ==> Ordered(intervals, stamps, sampleTime, previous)
      requires integrated ==> previous.Some? && sampleTime.Some? && previous.value < sampleTime.value
      requires previousSample == sampleTime
      modifies this`intervals
      ensures intervals == if integrated then old(intervals) + [(previous.value, sampleTime.value)] else old(intervals)
      ensures Monotone(stamps) ==> Ordered(intervals, stamps, sampleTime, previousSample)
    {
      if Monotone(stamps) {
        NextInterval(intervals, stamps, sampleTime, previous, integrated);
      }
      if integrated {
        intervals := intervals + [(previous.value, sampleTime.value)];
      }
    }

    /** A cycle without a moving command: no excess can have held. */
    method ResetTransientState(now: real)
      requires Valid()
      modifies this`wheelspinSince, this`cycles
      ensures Valid() && wheelspinSince == None && cycles == old(cycles) + [(now, false)]
    {
      hide SpinHistory, Ordered, Config.Valid;
      NextCycle(cycles, wheelspinSince, now, false);
      cycles := cycles + [(now, false)];
      wheelspinSince := None;
    }

    /**
     One timer cycle. The freeze reason is the first applicable one in the declared precedence;
     with any reason the integrator keeps its value, without one it takes the bounded candidate,
     which never drives a saturated output further out.
     */
    method Step(now: real) returns (d: Decision)
      requires Valid()
      modifies this`wheelspinSince, this`previousSample, this`integrator, this`intervals, this`cycles
      ensures Valid() && -config.bound <= integrator <= config.bound
      ensures |cycles| == |old(cycles)| + 1 && old(cycles) <= cycles && cycles[|cycles| - 1].0 == now
      ensures cycles[|cycles| - 1].1 ==> Spinning(config, old(View()), now)
      ensures d.reason == FirstApplicable(config, old(View()), now, PRECEDENCE)
      ensures d.reason != NoFreeze ==> integrator == old(integrator) && intervals == old(intervals)
      ensures d.reason == NoFreeze ==>
                && IntegrationDt(old(View())).Some? && integrator == Candidate(config, old(View()), IntegrationDt(old(View())).value)
                && !DrivesFarther(config, old(View()), now, integrator)
      ensures d.publish == HasCommand(config, old(View()), now) && d.integrator == integrator
      ensures -config.outMax <= d.throttle <= config.outMax
      ensures if d.reason == NoCommand || d.reason == InvalidCommand || d.reason == ZeroCommand
              then d.throttle == 0.0 && wheelspinSince == None && (d.mode == Silence || d.mode == Brake)
              else d.throttle == Sign(Speed(old(View()))) as real * Clamp(config.outMin, config.outMax, Raw(config, old(View()), now, integrator))
                   && FiniteCommand(old(View())) && Corrects(config, old(View()), now, integrator, d.throttle)
      ensures d.reason == NoFreeze ==> FiniteCommand(old(View())) && Integrates(config, old(View()), integrator)
    {
      hide Corrects, Integrates, Ordered, IntegrationDt, Candidate, DrivesFarther, Raw, Cascade, FirstApplicable, Clamp, SpinHistory, Spinning, Config.Feedforward, Saturate;
      StoppedCascade(config, View(), now);
      PositiveOutput(config);
      CascadeFollowsPrecedence(config, View(), now);
      ghost var s := View();
      if command.None? || commandTime.None? || now - commandTime.value > config.commandTimeout {
        ResetTransientState(now);
        return Decision(false, Silence, 0.0, Unsaturated, integrator, NoCommand);
      }
      if command.value.0.NonFinite? || command.value.1.NonFinite? {
        ResetTransientState(now);
        return Decision(true, Brake, 0.0, Unsaturated, integrator, InvalidCommand);
      }
      var speed := command.value.0.r;
      if speed == 0.0 {
        ResetTransientState(now);
        return Decision(true, Brake, 0.0, Unsaturated, integrator, ZeroCommand);
      }
      d := Drive(now, speed);
      assert d.reason == NoFreeze ==> !Applies(config, s, now, AntiWindup);
    }
  }

  lemma PositiveOutput(c: Config)
    requires c.Valid()
    ensures c.outMin == 0.0 < c.outMax
  {
  }

  lemma StoppedCascade(c: Config, s: Inputs, now: real)
    requires c.rate > 0.0
    ensures !HasCommand(c, s, now) <==> Cascade(c, s, now) == NoCommand
    ensures HasCommand(c, s, now) && !FiniteCommand(s) <==> Cascade(c, s, now) == InvalidCommand
    ensures HasCommand(c, s, now) && FiniteCommand(s) && Speed(s) == 0.0 <==> Cascade(c, s, now) == ZeroCommand
    ensures Cascade(c, s, now) == NoFreeze ==> !Applies(c, s, now, AntiWindup)
  {
    hide Stale, SpinQualified, Arbitrated, Selected, IntegrationDt, DrivesFarther, Candidate;
  }

  lemma PositiveRate(c: Config)
    requires c.Valid()
    ensures c.rate > 0.0
  {
  }

  lemma ZeroGain(ki: real, error: real, dt: real)
    ensures ki == 0.0 ==> ki * error * dt == 0.0
  {
  }

  lemma ThrottleBounded(c: Config, sign: int, raw: real)
    requires c.outMin == 0.0 < c.outMax && (sign == 1 || sign == -1)
    ensures -c.outMax <= sign as real * Clamp(c.outMin, c.outMax, raw) <= c.outMax
  {
  }

  lemma ShorterMonotone(stamps: seq<real>, x: real)
    ensures Monotone(stamps + [x]) ==> Monotone(stamps)
  {
    var all := stamps + [x];
    if Monotone(all) {
      forall i, j | 0 <= i < j < |stamps|
        ensures stamps[i] <= stamps[j]
      {
        assert all[i] <= all[j];
      }
    }
  }
}
