/**
 * The motor and servo output bookkeeping of pwm_output_hw.c: the per-output
 * records (pwmMotors, servos), the motor count, the continuous-update flag,
 * motorPwmDevInit's protocol switch, timer allocation and integer timing,
 * the first-user-of-a-timer flag behind forceOverflow, and the shutdown,
 * update-complete and servo paths. Timers are abstract identifiers; the
 * allocator and the timer clocks are oracles; the calls into the timer HAL
 * that matter (pwmOutConfig, timerForceOverflow) are recorded in logs.
 */
module PwmOutput {
  import opened Wrappers

  /** A timer instance (the TIM_TypeDef a channel belongs to). */
  type TimerId = nat
  /** An IO tag; 0 is the empty tag. */
  type IoTag = nat

  const UINT32: nat := 0x1_0000_0000
  const UINT16: nat := 0x1_0000
  /** PWM_TIMER_1MHZ, the servo timer frequency. */
  const PWM_TIMER_1MHZ: nat := 1_000_000

  function Min(a: nat, b: nat): nat {
    if a < b then a else b
  }

  /** The channel of an output: the value of its compare register, None
      where `ccr` is NULL, and its timer, None where `tim` is NULL. */
  datatype Channel = Channel(ccr: Option<int>, tim: Option<TimerId>)

  /** pwmOutputPort_t without its float pulse scale and offset. */
  datatype Port = Port(channel: Channel, io: IoTag, forceOverflow: bool, enabled: bool)

  /** A record after memset(0). */
  const EMPTY_PORT: Port := Port(Channel(None, None), 0, false, false)

  /** The port with its compare register set to `v`. */
  function WithCompare(p: Port, v: int): (q: Port)
    ensures q.channel.ccr == Some(v)
  {
    p.(channel := p.channel.(ccr := Some(v)))
  }

  /** A port drives pulses when its compare register holds a nonzero value. */
  predicate Pulsing(p: Port) {
    p.channel.ccr.Some? && p.channel.ccr.value != 0
  }

  /** The shutdown of one motor: its compare register set to 0 when it has one. */
  function Silenced(p: Port): (q: Port)
    ensures !Pulsing(q)
    ensures q.channel.tim == p.channel.tim && q.io == p.io
    ensures q.forceOverflow == p.forceOverflow && q.enabled == p.enabled
    ensures p.channel.ccr.None? ==> q == p
  {
    if p.channel.ccr.Some? then WithCompare(p, 0) else p
  }

  lemma SilencedIdempotent(p: Port)
    ensures Silenced(Silenced(p)) == Silenced(p)
  {
  }

  /** The timers pwmCompleteMotorUpdate forces to overflow: those of the
      first `k` ports whose forceOverflow is set, in index order. */
  function ForcedTimers(ports: seq<Port>, k: nat): seq<TimerId>
    requires k <= |ports|
    requires forall i :: 0 <= i < k && ports[i].forceOverflow ==> ports[i].channel.tim.Some?
    decreases k
  {
    if k == 0 then []
    else
      ForcedTimers(ports, k - 1)
        + (if ports[k - 1].forceOverflow then [ports[k - 1].channel.tim.value] else [])
  }

  /** The ports below `k` each have a timer, and a port's forceOverflow is
      set exactly when no lower port shares its timer. */
  predicate FirstUseFlags(ports: seq<Port>, k: nat)
    requires k <= |ports|
  {
    (forall i :: 0 <= i < k ==> ports[i].channel.tim.Some?)
    && forall i :: 0 <= i < k ==>
      (ports[i].forceOverflow <==> forall j :: 0 <= j < i ==> ports[j].channel.tim != ports[i].channel.tim)
  }

  predicate Distinct(s: seq<TimerId>) {
    forall a, b :: 0 <= a < b < |s| ==> s[a] != s[b]
  }

  /** With first-use flags, the forced timers are the timers of the first
      `k` ports, each listed once. */
  lemma ForcedEachTimerOnce(ports: seq<Port>, k: nat)
    requires k <= |ports| && FirstUseFlags(ports, k)
    ensures Distinct(ForcedTimers(ports, k))
    ensures forall i :: 0 <= i < k ==> ports[i].channel.tim.value in ForcedTimers(ports, k)
    ensures forall t :: t in ForcedTimers(ports, k) ==> exists i :: 0 <= i < k && ports[i].channel.tim == Some(t)
  {
    ForcedDistinct(ports, k);
    ForcedCovers(ports, k);
    ForcedWithin(ports, k);
  }

  /** With first-use flags, every timer used by the first `k` ports is
      flagged on exactly one of them. */
  lemma OneFlagPerTimer(ports: seq<Port>, k: nat)
    requires k <= |ports| && FirstUseFlags(ports, k)
    ensures forall i :: 0 <= i < k ==> FlaggedBelow(ports, k, i)
    ensures forall a, b ::
      0 <= a < k && 0 <= b < k && ports[a].forceOverflow && ports[b].forceOverflow && ports[a].channel.tim == ports[b].channel.tim
      ==> a == b
  {
    forall i | 0 <= i < k
      ensures FlaggedBelow(ports, k, i)
    {
      var j := FlaggedFor(ports, k, i);
    }
    FlagUnique(ports, k);
  }

  /** Some port below `k` on port `i`'s timer is flagged. */
  predicate FlaggedBelow(ports: seq<Port>, k: nat, i: nat)
    requires i < k <= |ports|
  {
    exists j :: 0 <= j < k && ports[j].forceOverflow && ports[j].channel.tim == ports[i].channel.tim
  }

  lemma FlagUnique(ports: seq<Port>, k: nat)
    requires k <= |ports| && FirstUseFlags(ports, k)
    ensures forall a, b ::
      0 <= a < k && 0 <= b < k && ports[a].forceOverflow && ports[b].forceOverflow && ports[a].channel.tim == ports[b].channel.tim
      ==> a == b
  {
  }

  /** The flagged port below `k` that shares port `i`'s timer: the lowest
      port on that timer. */
  lemma {:induction false} FlaggedFor(ports: seq<Port>, k: nat, i: nat) returns (j: nat)
    requires i < k <= |ports| && FirstUseFlags(ports, k)
    ensures j <= i && ports[j].forceOverflow && ports[j].channel.tim == ports[i].channel.tim
    decreases i
  {
    if ports[i].forceOverflow {
      j := i;
    } else {
      var m :| 0 <= m < i && ports[m].channel.tim == ports[i].channel.tim;
      j := FlaggedFor(ports, k, m);
    }
  }

  lemma {:induction false} ForcedWithin(ports: seq<Port>, k: nat)
    requires k <= |ports|
    requires forall i :: 0 <= i < k && ports[i].forceOverflow ==> ports[i].channel.tim.Some?
    ensures forall t :: t in ForcedTimers(ports, k) ==> exists i :: 0 <= i < k && ports[i].channel.tim == Some(t)
  {
    if k > 0 {
      ForcedWithin(ports, k - 1);
      forall t | t in ForcedTimers(ports, k)
        ensures exists i :: 0 <= i < k && ports[i].channel.tim == Some(t)
      {
        if t !in ForcedTimers(ports, k - 1) {
          assert ports[k - 1].channel.tim == Some(t);
        }
      }
    }
  }

  lemma {:induction false} ForcedCovers(ports: seq<Port>, k: nat)
    requires k <= |ports| && FirstUseFlags(ports, k)
    ensures forall i :: 0 <= i < k ==> ports[i].channel.tim.value in ForcedTimers(ports, k)
  {
    if k > 0 {
      assert FirstUseFlags(ports, k - 1);
      ForcedCovers(ports, k - 1);
      var before := ForcedTimers(ports, k - 1);
      var last := ports[k - 1];
      var all := before + (if last.forceOverflow then [last.channel.tim.value] else []);
      assert ForcedTimers(ports, k) == all;
      forall i | 0 <= i < k
        ensures ports[i].channel.tim.value in all
      {
        if i < k - 1 {
          assert ports[i].channel.tim.value in before;
        } else if last.forceOverflow {
          assert all[|before|] == last.channel.tim.value;
        } else {
          var j :| 0 <= j < k - 1 && ports[j].channel.tim == last.channel.tim;
          assert ports[j].channel.tim.value in before;
        }
      }
    }
  }

  lemma {:induction false} ForcedDistinct(ports: seq<Port>, k: nat)
    requires k <= |ports| && FirstUseFlags(ports, k)
    ensures Distinct(ForcedTimers(ports, k))
  {
    if k > 0 {
      ForcedDistinct(ports, k - 1);
      if ports[k - 1].forceOverflow {
        var before := ForcedTimers(ports, k - 1);
        var t := ports[k - 1].channel.tim.value;
        ForcedWithin(ports, k - 1);
        forall a | 0 <= a < |before|
          ensures before[a] != t
        {
          assert before[a] in before;
        }
        assert ForcedTimers(ports, k) == before + [t];
      }
    }
  }

  // ---------------------------------------------------------------------
  // Protocols and timing

  /** motorProtocol as far as this file distinguishes it. */
  datatype Protocol = Oneshot125 | Oneshot42 | Multishot | Brushed | Pwm | OtherProtocol(code: nat)

  /** The pulse timing (the float sMin and sLen) the protocol switch picks. */
  datatype Shape = Shape125 | Shape42 | ShapeMulti | ShapeBrushed | ShapePwm

  /** The outcome of the protocol switch: the pulse timing, whether updates
      are continuous, and the idle pulse. */
  datatype Settings = Settings(shape: Shape, continuous: bool, idlePulse: nat)

  function ProtocolSettings(p: Protocol, continuous: bool, idlePulse: nat): Settings {
    match p
    case Oneshot42 => Settings(Shape42, continuous, idlePulse)
    case Multishot => Settings(ShapeMulti, continuous, idlePulse)
    case Brushed => Settings(ShapeBrushed, true, 0)
    case Pwm => Settings(ShapePwm, true, 0)
    case _ => Settings(Shape125, continuous, idlePulse)
  }

  /** Brushed and PWM force continuous updates and a zero idle pulse; the
      other protocols keep the configured flag and pulse; an unknown
      protocol is ONESHOT125; unsynced updates only occur with the oneshot
      and multishot timings. */
  lemma ProtocolSwitch(p: Protocol, continuous: bool, idlePulse: nat)
    ensures (p.Brushed? || p.Pwm?) ==>
      ProtocolSettings(p, continuous, idlePulse).continuous && ProtocolSettings(p, continuous, idlePulse).idlePulse == 0
    ensures !(p.Brushed? || p.Pwm?) ==>
      ProtocolSettings(p, continuous, idlePulse).continuous == continuous
      && ProtocolSettings(p, continuous, idlePulse).idlePulse == idlePulse
    ensures p.OtherProtocol? ==> ProtocolSettings(p, continuous, idlePulse) == ProtocolSettings(Oneshot125, continuous, idlePulse)
    ensures !ProtocolSettings(p, continuous, idlePulse).continuous ==>
      ProtocolSettings(p, continuous, idlePulse).shape in {Shape125, Shape42, ShapeMulti}
  {
  }

  /** The timer prescaler, rounded up so that the period fits 16 bits, in
      unsigned 32-bit arithmetic. */
  function Prescaler(clock: nat, rate: nat): nat
    requires rate > 0
  {
    ((clock / rate + 0xFFFF) % UINT32) / 0x1_0000
  }

  /** The arithmetic of motorPwmDevInit is defined: a nonzero rate, a 32-bit
      clock, and a nonzero prescaler to divide by. */
  predicate ClockFits(clock: nat, rate: nat) {
    rate > 0 && clock < UINT32 && Prescaler(clock, rate) > 0
  }

  function TimerHz(clock: nat, rate: nat): nat
    requires ClockFits(clock, rate)
  {
    clock / Prescaler(clock, rate)
  }

  function MotorPeriod(continuous: bool, clock: nat, rate: nat): nat
    requires ClockFits(clock, rate)
  {
    if continuous then TimerHz(clock, rate) / rate else 0xFFFF
  }

  /** The prescaler is defined exactly when the clock is at least the rate
      and clock / rate + 0xffff does not wrap around. */
  lemma ClockFitsIff(clock: nat, rate: nat)
    requires rate > 0 && clock < UINT32
    ensures ClockFits(clock, rate) <==> rate <= clock && clock / rate + 0xFFFF < UINT32
  {
    var q := clock / rate;
    DivAtMost(clock, rate);
    if q + 0xFFFF >= UINT32 {
      assert (q + 0xFFFF) % UINT32 == q + 0xFFFF - UINT32;
    } else {
      assert (q + 0xFFFF) % UINT32 == q + 0xFFFF;
    }
    if rate > clock {
      assert q == 0;
    }
  }

  /** The prescaler is the rounded-up quotient clock / rate / 65536 and
      fits 16 bits, and a continuous period never exceeds 65536 ticks. */
  lemma TimingBounds(clock: nat, rate: nat)
    requires ClockFits(clock, rate)
    ensures 1 <= Prescaler(clock, rate) <= 0xFFFF
    ensures (Prescaler(clock, rate) - 1) * 0x1_0000 < clock / rate <= Prescaler(clock, rate) * 0x1_0000
    ensures TimerHz(clock, rate) / rate <= 0x1_0000
    ensures MotorPeriod(true, clock, rate) <= 0x1_0000 && MotorPeriod(false, clock, rate) == 0xFFFF
  {
    ClockFitsIff(clock, rate);
    NoWrap(clock / rate + 0xFFFF);
    TimingCore(clock, rate, clock / rate, Prescaler(clock, rate), TimerHz(clock, rate));
  }

  /** The bound on the continuous period is reached: a 65.536 MHz timer
      clock at 1 kHz gives a prescaler of 1 and a period of 65536 ticks,
      which pwmOutConfig's uint16_t period parameter receives as 0. */
  lemma PeriodReachesBound()
    ensures ClockFits(65_536_000, 1000) && Prescaler(65_536_000, 1000) == 1
    ensures MotorPeriod(true, 65_536_000, 1000) == 0x1_0000 && MotorPeriod(true, 65_536_000, 1000) % UINT16 == 0
  {
  }

  lemma TimingCore(clock: nat, rate: nat, q: nat, p: nat, hz: nat)
    requires rate > 0 && q == clock / rate && 1 <= q && q + 0xFFFF < UINT32
    requires p == (q + 0xFFFF) / 0x1_0000 && p > 0 && hz == clock / p
    ensures 1 <= p <= 0xFFFF
    ensures (p - 1) * 0x1_0000 < q <= p * 0x1_0000
    ensures hz / rate <= 0x1_0000
  {
    PrescalerRange(q, p);
    CeilDiv(q, p, 0x1_0000);
    DivBounds(clock, p);
    DivBounds(clock, rate);
    HzBound(clock, rate, q, p, hz, 0x1_0000);
  }

  lemma NoWrap(x: nat)
    requires x < UINT32
    ensures x % UINT32 == x
  {
  }

  lemma PrescalerRange(q: nat, p: nat)
    requires 1 <= q && q + 0xFFFF < UINT32 && p == (q + 0xFFFF) / 0x1_0000
    ensures 1 <= p <= 0xFFFF
  {
  }

  /** p = (q + m - 1) / m is the rounded-up quotient. */
  lemma CeilDiv(q: nat, p: nat, m: nat)
    requires m > 0 && p == (q + m - 1) / m
    ensures (p - 1) * m < q <= p * m
  {
    DivBounds(q + m - 1, m);
    assert p * m == m * p;
    assert (p - 1) * m == p * m - m;
  }

  lemma DivBounds(a: nat, b: nat)
    requires b > 0
    ensures b * (a / b) <= a < b * (a / b) + b
  {
  }

  lemma HzBound(clock: nat, rate: nat, q: nat, p: nat, hz: nat, m: nat)
    requires rate > 0 && p > 0
    requires p * hz <= clock && clock < rate * q + rate && q <= p * m
    ensures hz / rate <= m
  {
    UpperByPrescaler(rate, q, p, m);
    CancelLess(p, hz, m * rate + rate);
    DivBelow(hz, rate, m);
  }

  lemma UpperByPrescaler(rate: nat, q: nat, p: nat, m: nat)
    requires p > 0 && q <= p * m
    ensures rate * q + rate <= p * (m * rate + rate)
  {
    MulMono(q, p * m, rate);
    Assoc(p, m, rate);
    MulAtLeast(p, rate);
    Distrib(p, m * rate, rate);
  }

  lemma CancelLess(p: nat, a: nat, b: nat)
    requires p > 0 && p * a < p * b
    ensures a < b
  {
    if a >= b {
      MulMono(b, a, p);
    }
  }

  lemma DivBelow(a: nat, b: nat, m: nat)
    requires b > 0 && a < m * b + b
    ensures a / b <= m
  {
    DivBounds(a, b);
    if a / b > m {
      MulMono(m + 1, a / b, b);
    }
  }

  lemma Assoc(p: nat, m: nat, r: nat)
    ensures r * (p * m) == p * (m * r)
  {
  }

  lemma Distrib(p: nat, a: nat, b: nat)
    ensures p * a + p * b == p * (a + b)
  {
  }

  lemma MulMono(a: nat, b: nat, c: nat)
    requires a <= b
    ensures a * c <= b * c && c * a <= c * b
  {
    assert b * c == a * c + (b - a) * c;
  }

  lemma MulAtLeast(b: nat, d: nat)
    requires b >= 1
    ensures b * d >= d
  {
    assert b * d == d + (b - 1) * d;
  }

  lemma DivAtMost(a: nat, b: nat)
    requires b > 0
    ensures a / b <= a
  {
    var d := a / b;
    assert a == b * d + a % b;
    MulAtLeast(b, d);
  }

  // ---------------------------------------------------------------------
  // What motorPwmDevInit and servoDevInit are given

  /** The owner a timer allocation is made for. */
  datatype Owner = OwnerMotor | OwnerServo

  /** The timer layer: timerAllocate as an oracle from a tag, an owner and
      a resource index to the timer it grants (None for NULL), and
      timerClock for each timer. */
  datatype Timers = Timers(grants: map<(IoTag, Owner, nat), TimerId>, clock: map<TimerId, nat>)

  /** timerAllocate: the timer granted for a tag, owner and resource index,
      or None for NULL. */
  function Allocate(timers: Timers, tag: IoTag, owner: Owner, index: nat): Option<TimerId> {
    if (tag, owner, index) in timers.grants then Some(timers.grants[(tag, owner, index)]) else None
  }

  /** Every timer that can be granted has a clock that leaves the timing
      arithmetic defined at `rate`. */
  predicate ClocksFit(timers: Timers, rate: nat) {
    forall key :: key in timers.grants ==>
      timers.grants[key] in timers.clock && ClockFits(timers.clock[timers.grants[key]], rate)
  }

  /** motorDevConfig_t as far as this file reads it. */
  datatype MotorConfig = MotorConfig(protocol: Protocol, useContinuousUpdate: bool, motorPwmRate: nat,
                                     motorInversion: bool, reordering: seq<nat>, ioTags: seq<IoTag>)

  /** servoDevConfig_t */
  datatype ServoConfig = ServoConfig(ioTags: seq<IoTag>, servoPwmRate: nat, servoCenterPulse: nat)

  function InitSettings(config: MotorConfig, idlePulse: nat): Settings {
    ProtocolSettings(config.protocol, config.useContinuousUpdate, idlePulse)
  }

  /** pwmRateHz: the configured rate when updates are continuous, otherwise
      the unsynced rate of the pulse timing (a float computation, given). */
  function PwmRate(s: Settings, config: MotorConfig, unsyncedRate: Shape -> nat): nat {
    if s.continuous then config.motorPwmRate else unsyncedRate(s.shape)
  }

  /** Motors below `n` have a reordered index within ioTags. */
  predicate Reorders(config: MotorConfig, n: nat) {
    forall i :: 0 <= i < n ==> Reordered(config, i)
  }

  /** Motor `i` has a reordered index within ioTags. */
  predicate Reordered(config: MotorConfig, i: nat) {
    i < |config.reordering| && config.reordering[i] < |config.ioTags|
  }

  /** The tag motor `i` is bound to, ioTags[motorOutputReordering[i]]; the
      empty tag for a motor outside the configured arrays, which the driver
      is never asked to set up. */
  function MotorTag(config: MotorConfig, i: nat): IoTag {
    if Reordered(config, i) then config.ioTags[config.reordering[i]] else 0
  }

  /** The timer granted to motor `i`. */
  function MotorAlloc(timers: Timers, config: MotorConfig, i: nat): Option<TimerId> {
    if Reordered(config, i) then Allocate(timers, MotorTag(config, i), OwnerMotor, config.reordering[i]) else None
  }

  /** No lower motor was granted motor `i`'s timer. */
  predicate FirstUse(timers: Timers, config: MotorConfig, i: nat) {
    NoneBelowShares(timers, config, i, i)
  }

  /** No motor below `j` was granted motor `i`'s timer. */
  predicate NoneBelowShares(timers: Timers, config: MotorConfig, i: nat, j: nat)
    decreases j
  {
    j == 0 || (MotorAlloc(timers, config, j - 1) != MotorAlloc(timers, config, i) && NoneBelowShares(timers, config, i, j - 1))
  }

  /** Motor `i` after motorPwmDevInit set it up. */
  function MotorPort(timers: Timers, config: MotorConfig, i: nat): Port {
    Port(Channel(Some(0), MotorAlloc(timers, config, i)), MotorTag(config, i), FirstUse(timers, config, i), true)
  }

  /** The pwmOutConfig call for motor `i`. */
  function MotorOutConfig(timers: Timers, config: MotorConfig, s: Settings, rate: nat, i: nat): OutConfig
    requires MotorAlloc(timers, config, i).Some? && ClocksFit(timers, rate)
  {
    var t := MotorAlloc(timers, config, i).value;
    var clock := timers.clock[t];
    OutConfig(t, TimerHz(clock, rate), MotorPeriod(s.continuous, clock, rate) % UINT16, s.idlePulse, config.motorInversion)
  }

  /** The pwmOutConfig calls for the first `k` motors. */
  function MotorConfigs(timers: Timers, config: MotorConfig, s: Settings, rate: nat, k: nat): seq<OutConfig>
    requires ClocksFit(timers, rate) && AllGranted(timers, config, k)
    decreases k
  {
    if k == 0 then []
    else MotorConfigs(timers, config, s, rate, k - 1) + [MotorOutConfig(timers, config, s, rate, k - 1)]
  }

  /** After a run of motorPwmDevInit that set up the first `k` motors, those
      motors carry first-use flags, and every one has a compare register and
      a timer, as pwmCompleteMotorUpdate needs. */
  lemma InitFirstUse(ports: seq<Port>, timers: Timers, config: MotorConfig, k: nat)
    requires k <= |ports|
    requires forall i :: 0 <= i < k ==> MotorAlloc(timers, config, i).Some?
    requires forall i :: 0 <= i < k ==> ports[i] == MotorPort(timers, config, i)
    ensures FirstUseFlags(ports, k)
    ensures forall i :: 0 <= i < k ==> ports[i].channel.ccr == Some(0) && ports[i].enabled
  {
    forall i | 0 <= i < k
      ensures ports[i].forceOverflow <==> forall j :: 0 <= j < i ==> ports[j].channel.tim != ports[i].channel.tim
    {
      FirstUseOfPorts(ports, timers, config, i);
    }
  }

  /** The search over lower ports decides FirstUse once the lower ports
      carry the timers their allocations granted. */
  lemma FirstUseOfPorts(ports: seq<Port>, timers: Timers, config: MotorConfig, index: nat)
    requires index < |ports|
    requires forall j :: 0 <= j <= index ==> ports[j].channel.tim == MotorAlloc(timers, config, j)
    ensures FirstUse(timers, config, index) <==> !exists j :: 0 <= j < index && ports[j].channel.tim == ports[index].channel.tim
  {
    NoneBelowSharesIff(ports, timers, config, index, index);
  }

  lemma {:induction false} NoneBelowSharesIff(ports: seq<Port>, timers: Timers, config: MotorConfig, i: nat, j: nat)
    requires j <= i < |ports|
    requires forall m :: 0 <= m <= i ==> ports[m].channel.tim == MotorAlloc(timers, config, m)
    ensures NoneBelowShares(timers, config, i, j) <==> forall m :: 0 <= m < j ==> ports[m].channel.tim != ports[i].channel.tim
    decreases j
  {
    if j > 0 {
      NoneBelowSharesIff(ports, timers, config, i, j - 1);
    }
  }

  /** Every motor below `k` was granted a timer. */
  predicate AllGranted(timers: Timers, config: MotorConfig, k: nat) {
    k == 0 || (MotorAlloc(timers, config, k - 1).Some? && AllGranted(timers, config, k - 1))
  }

  lemma {:induction false} AllGrantedBelow(timers: Timers, config: MotorConfig, k: nat)
    ensures AllGranted(timers, config, k) <==> forall i :: 0 <= i < k ==> MotorAlloc(timers, config, i).Some?
  {
    if k > 0 {
      AllGrantedBelow(timers, config, k - 1);
    }
  }

  lemma AppendAssoc<T>(a: seq<T>, b: seq<T>, x: T)
    ensures a + b + [x] == a + (b + [x])
  {
  }

  /** Servo `i`'s allocation. */
  function ServoAlloc(timers: Timers, sc: ServoConfig, i: nat): Option<TimerId>
    requires i < |sc.ioTags|
  {
    Allocate(timers, sc.ioTags[i], OwnerServo, i)
  }

  /** Servo `i` has a tag but is refused a timer, which ends servoDevInit. */
  predicate ServoFails(timers: Timers, sc: ServoConfig, i: nat)
    requires i < |sc.ioTags|
  {
    sc.ioTags[i] != 0 && ServoAlloc(timers, sc, i).None?
  }

  /** Servo `i` once servoDevInit has passed it without failing: unchanged
      with an empty tag, otherwise bound to its tag and timer and enabled. */
  function ServoDone(p: Port, timers: Timers, sc: ServoConfig, i: nat): Port
    requires i < |sc.ioTags| && !ServoFails(timers, sc, i)
  {
    if sc.ioTags[i] == 0 then p
    else p.(io := sc.ioTags[i], channel := Channel(Some(0), ServoAlloc(timers, sc, i)), enabled := true)
  }

  /** Servo `i` after a servoDevInit that stopped at index `k`: servos
      before it are done, servo `k` has its io set but nothing else, and
      later servos are untouched. */
  function ServoAfter(p: Port, timers: Timers, sc: ServoConfig, i: nat, k: nat): Port
    requires i < |sc.ioTags| && k <= |sc.ioTags|
    requires forall j :: 0 <= j < k ==> !ServoFails(timers, sc, j)
  {
    if i < k then ServoDone(p, timers, sc, i)
    else if i == k then p.(io := sc.ioTags[i])
    else p
  }

  /** The pwmOutConfig calls for the servos below `k`. */
  function ServoConfigs(timers: Timers, sc: ServoConfig, k: nat): seq<OutConfig>
    requires k <= |sc.ioTags| && sc.servoPwmRate > 0
    requires forall j :: 0 <= j < k ==> !ServoFails(timers, sc, j)
    decreases k
  {
    if k == 0 then []
    else
      assert !ServoFails(timers, sc, k - 1);
      ServoConfigs(timers, sc, k - 1)
        + (if sc.ioTags[k - 1] == 0 then []
           else [OutConfig(ServoAlloc(timers, sc, k - 1).value, PWM_TIMER_1MHZ,
                           (PWM_TIMER_1MHZ / sc.servoPwmRate) % UINT16, sc.servoCenterPulse, false)])
  }

  // ---------------------------------------------------------------------
  // The output state

  datatype VTableRef = NoVTable | MotorPwmVTable

  /** The fields of motorDevice_t that motorPwmDevInit reads or writes. */
  class MotorDevice {
    var count: nat
    var vTable: VTableRef

    constructor (count: nat)
      ensures this.count == count && vTable == NoVTable
    {
      this.count, vTable := count, NoVTable;
    }
  }

  /** One pwmOutConfig call: the timer, its frequency, the period and the
      initial pulse as the uint16_t parameters receive them, and whether
      the output is inverted. */
  datatype OutConfig = OutConfig(tim: TimerId, hz: nat, period: nat, pulse: nat, inverted: bool)

  /** The file's state: pwmMotors and servos (of MAX_SUPPORTED_MOTORS and
      MAX_SUPPORTED_SERVOS records), pwmMotorCount, useContinuousUpdate, and
      the logs of pwmOutConfig and timerForceOverflow calls. */
  class PwmOutputs {
    const motors: array<Port>
    const servos: array<Port>
    var motorCount: nat
    var useContinuousUpdate: bool
    var configured: seq<OutConfig>
    var forced: seq<TimerId>

    /** Static storage: every record zero, continuous update on. */
    constructor (maxMotors: nat, maxServos: nat)
      ensures motors.Length == maxMotors && servos.Length == maxServos
      ensures fresh(motors) && fresh(servos) && motors != servos
      ensures forall i :: 0 <= i < maxMotors ==> motors[i] == EMPTY_PORT
      ensures forall i :: 0 <= i < maxServos ==> servos[i] == EMPTY_PORT
      ensures motorCount == 0 && useContinuousUpdate
      ensures configured == [] && forced == []
    {
      motors := new Port[maxMotors](_ => EMPTY_PORT);
      servos := new Port[maxServos](_ => EMPTY_PORT);
      motorCount, useContinuousUpdate := 0, true;
      configured, forced := [], [];
    }

    /** pwmShutdownPulsesForAllMotors: every motor below pwmMotorCount that
        has a compare register gets 0 in it; nothing else changes. */
    method ShutdownPulses()
      requires motorCount <= motors.Length
      modifies motors
      ensures forall i :: 0 <= i < motors.Length ==>
        motors[i] == if i < motorCount then Silenced(old(motors[i])) else old(motors[i])
    {
      for index := 0 to motorCount
        invariant forall i :: 0 <= i < motors.Length ==>
          motors[i] == if i < index then Silenced(old(motors[i])) else old(motors[i])
      {
        if motors[index].channel.ccr.Some? {
          motors[index] := WithCompare(motors[index], 0);
        }
      }
    }

    /** pwmDisableMotors */
    method DisableMotors()
      requires motorCount <= motors.Length
      modifies motors
      ensures forall i :: 0 <= i < motors.Length ==>
        motors[i] == if i < motorCount then Silenced(old(motors[i])) else old(motors[i])
    {
      ShutdownPulses();
    }

    /**
     * pwmCompleteMotorUpdate: nothing in continuous-update mode; otherwise
     * each motor below pwmMotorCount has its timer forced to overflow when
     * its forceOverflow is set, and its compare register set to 0. The code
     * dereferences `ccr` and passes `tim` without a check, so those must be
     * set.
     */
    method CompleteMotorUpdate()
      requires motorCount <= motors.Length
      requires !useContinuousUpdate ==> forall i :: 0 <= i < motorCount ==>
        motors[i].channel.ccr.Some? && (motors[i].forceOverflow ==> motors[i].channel.tim.Some?)
      modifies motors, this`forced
      ensures useContinuousUpdate ==> forced == old(forced) && forall i :: 0 <= i < motors.Length ==> motors[i] == old(motors[i])
      ensures !useContinuousUpdate ==> forced == old(forced) + ForcedTimers(old(motors[..]), motorCount)
      ensures !useContinuousUpdate ==> forall i :: 0 <= i < motors.Length ==>
        motors[i] == if i < motorCount then WithCompare(old(motors[i]), 0) else old(motors[i])
    {
      if useContinuousUpdate {
        return;
      }
      ghost var before := motors[..];
      for index := 0 to motorCount
        invariant forced == old(forced) + ForcedTimers(before, index)
        invariant forall i :: 0 <= i < motors.Length ==>
          motors[i] == if i < index then WithCompare(before[i], 0) else before[i]
      {
        if motors[index].forceOverflow {
          forced := forced + [motors[index].channel.tim.value];
        }
        motors[index] := WithCompare(motors[index], 0);
      }
    }

    /** memset(pwmMotors, 0, ...) */
    method ClearMotors()
      modifies motors
      ensures forall i :: 0 <= i < motors.Length ==> motors[i] == EMPTY_PORT
    {
      for index := 0 to motors.Length
        invariant forall i :: 0 <= i < index ==> motors[i] == EMPTY_PORT
      {
        motors[index] := EMPTY_PORT;
      }
    }

    /**
     * pwmOutConfig without its HAL path: the timer's time base and output
     * compare are programmed (recorded with the period cut to its uint16_t
     * parameter), the channel is bound to the timer and its compare
     * register set to 0.
     */
    method PwmOutConfig(ports: array<Port>, index: nat, tim: TimerId, hz: nat, period: nat, value: nat, inverted: bool)
      requires index < ports.Length && value < UINT16
      modifies ports, this`configured
      ensures ports[index] == old(ports[index]).(channel := Channel(Some(0), Some(tim)))
      ensures forall i :: 0 <= i < ports.Length && i != index ==> ports[i] == old(ports[i])
      ensures configured == old(configured) + [OutConfig(tim, hz, period % UINT16, value, inverted)]
    {
      configured := configured + [OutConfig(tim, hz, period % UINT16, value, inverted)];
      ports[index] := ports[index].(channel := Channel(Some(0), Some(tim)));
    }

    /** The search for a lower motor on the same timer. */
    method TimerAlreadyUsed(motorIndex: nat) returns (used: bool)
      requires motorIndex < motors.Length
      ensures used <==> exists j :: 0 <= j < motorIndex && motors[j].channel.tim == motors[motorIndex].channel.tim
    {
      used := false;
      for i := 0 to motorIndex
        invariant forall j :: 0 <= j < i ==> motors[j].channel.tim != motors[motorIndex].channel.tim
      {
        if motors[i].channel.tim == motors[motorIndex].channel.tim {
          used := true;
          break;
        }
      }
    }

    /** One pass of motorPwmDevInit's loop: allocate motor `index`'s timer
        and, when granted, configure the output and set its flags. */
    method InitMotor(index: nat, config: MotorConfig, timers: Timers, s: Settings, rate: nat, ghost before: seq<OutConfig>)
        returns (hasTimer: bool)
      requires index < motors.Length && Reordered(config, index) && ClocksFit(timers, rate)
      requires s.idlePulse < UINT16
      requires forall j :: 0 <= j < index ==> motors[j].channel.tim == MotorAlloc(timers, config, j)
      requires AllGranted(timers, config, index)
      requires configured == before + MotorConfigs(timers, config, s, rate, index)
      modifies motors, this`configured
      ensures hasTimer == MotorAlloc(timers, config, index).Some?
      ensures hasTimer ==> motors[index] == MotorPort(timers, config, index)
      ensures hasTimer ==> configured == before + MotorConfigs(timers, config, s, rate, index + 1)
      ensures !hasTimer ==> configured == old(configured)
      ensures forall j :: 0 <= j < motors.Length && (j != index || !hasTimer) ==> motors[j] == old(motors[j])
    {
      assert Reordered(config, index);
      var reordered := config.reordering[index];
      var tag := config.ioTags[reordered];
      var granted := Allocate(timers, tag, OwnerMotor, reordered);
      assert granted == MotorAlloc(timers, config, index);
      if granted.None? {
        return false;
      }
      motors[index] := motors[index].(io := tag);
      var clock := timers.clock[granted.value];
      assert ClockFits(clock, rate);
      PwmOutConfig(motors, index, granted.value, TimerHz(clock, rate), MotorPeriod(s.continuous, clock, rate),
                   s.idlePulse, config.motorInversion);
      var used := TimerAlreadyUsed(index);
      FirstUseOfPorts(motors[..], timers, config, index);
      motors[index] := motors[index].(forceOverflow := !used, enabled := true);
      AppendAssoc(before, MotorConfigs(timers, config, s, rate, index), MotorOutConfig(timers, config, s, rate, index));
      return true;
    }

    /**
     * motorPwmDevInit's loop: motors in order up to `n`, stopping at the
     * first one refused a timer (`k` is that motor, or `n`).
     */
    method InitMotors(n: nat, config: MotorConfig, timers: Timers, s: Settings, rate: nat) returns (ok: bool, ghost k: nat)
      requires n <= motors.Length && Reorders(config, n) && ClocksFit(timers, rate) && s.idlePulse < UINT16
      requires forall i :: 0 <= i < motors.Length ==> motors[i] == EMPTY_PORT
      modifies motors, this`configured
      ensures k <= n && (ok <==> k == n)
      ensures AllGranted(timers, config, k)
      ensures forall i :: 0 <= i < k ==> MotorAlloc(timers, config, i).Some?
      ensures !ok ==> MotorAlloc(timers, config, k).None?
      ensures forall i :: 0 <= i < motors.Length ==> motors[i] == if i < k then MotorPort(timers, config, i) else EMPTY_PORT
      ensures configured == old(configured) + MotorConfigs(timers, config, s, rate, k)
    {
      var motorIndex := 0;
      while motorIndex < n
        invariant motorIndex <= n
        invariant AllGranted(timers, config, motorIndex)
        invariant forall i :: 0 <= i < motors.Length ==>
          motors[i] == if i < motorIndex then MotorPort(timers, config, i) else EMPTY_PORT
        invariant configured == old(configured) + MotorConfigs(timers, config, s, rate, motorIndex)
      {
        AllGrantedBelow(timers, config, motorIndex);
        var hasTimer := InitMotor(motorIndex, config, timers, s, rate, old(configured));
        if !hasTimer {
          AllGrantedBelow(timers, config, motorIndex);
          return false, motorIndex;
        }
        motorIndex := motorIndex + 1;
      }
      AllGrantedBelow(timers, config, motorIndex);
      return true, motorIndex;
    }

    /**
     * motorPwmDevInit: clears every motor record, takes the device's count,
     * installs the vtable, applies the protocol switch, and sets up motors
     * in order up to the count or MAX_SUPPORTED_MOTORS. The first motor
     * refused a timer ends it with the vtable cleared, the count 0 and
     * false (`k` is that motor, or the number of motors set up).
     */
    method MotorPwmDevInit(device: MotorDevice, config: MotorConfig, idlePulse: nat, timers: Timers,
                           unsyncedRate: Shape -> nat) returns (ok: bool, ghost k: nat)
      requires idlePulse < UINT16
      requires Reorders(config, Min(device.count, motors.Length))
      requires ClocksFit(timers, PwmRate(InitSettings(config, idlePulse), config, unsyncedRate))
      modifies this, motors, device
      ensures k <= Min(old(device.count), motors.Length)
      ensures ok <==> k == Min(old(device.count), motors.Length)
      ensures AllGranted(timers, config, k)
      ensures forall i :: 0 <= i < k ==> MotorAlloc(timers, config, i).Some?
      ensures !ok ==> MotorAlloc(timers, config, k).None?
      ensures forall i :: 0 <= i < motors.Length ==> motors[i] == if i < k then MotorPort(timers, config, i) else EMPTY_PORT
      ensures device.count == old(device.count)
      ensures device.vTable == (if ok then MotorPwmVTable else NoVTable)
      ensures motorCount == (if ok then device.count else 0)
      ensures useContinuousUpdate == InitSettings(config, idlePulse).continuous
      ensures configured == old(configured)
        + MotorConfigs(timers, config, InitSettings(config, idlePulse), PwmRate(InitSettings(config, idlePulse), config, unsyncedRate), k)
      ensures forced == old(forced)
    {
      ClearMotors();
      motorCount := device.count;
      device.vTable := MotorPwmVTable;
      useContinuousUpdate := config.useContinuousUpdate;
      var s := ProtocolSettings(config.protocol, useContinuousUpdate, idlePulse);
      useContinuousUpdate := s.continuous;
      var rate := if useContinuousUpdate then config.motorPwmRate else unsyncedRate(s.shape);
      ok, k := InitMotors(Min(motorCount, motors.Length), config, timers, s, rate);
      if !ok {
        device.vTable := NoVTable;
        motorCount := 0;
      }
    }

    /** pwmWriteServo with the value already rounded: an index within
        MAX_SUPPORTED_SERVOS whose servo has a compare register gets the
        value in it; otherwise nothing happens. */
    method WriteServo(index: nat, value: int)
      requires index < 0x100
      modifies servos
      ensures index < servos.Length && old(servos[index]).channel.ccr.Some? ==> servos[index] == WithCompare(old(servos[index]), value)
      ensures forall i :: 0 <= i < servos.Length && (i != index || old(servos[index]).channel.ccr.None?) ==> servos[i] == old(servos[i])
    {
      if index < servos.Length && servos[index].channel.ccr.Some? {
        servos[index] := WithCompare(servos[index], value);
      }
    }

    /**
     * servoDevInit: servos in order; one without a tag is skipped; one with
     * a tag gets its io, and then either is refused a timer, which ends the
     * loop (`k` is that servo, or MAX_SUPPORTED_SERVOS), or is configured at
     * 1 MHz with the configured rate and centre pulse and enabled.
     */
    method ServoDevInit(sc: ServoConfig, timers: Timers) returns (ghost k: nat)
      requires servos.Length < 0x100
      requires |sc.ioTags| >= servos.Length && sc.servoPwmRate > 0 && sc.servoCenterPulse < UINT16
      modifies servos, this`configured
      ensures k <= servos.Length
      ensures forall i :: 0 <= i < k ==> !ServoFails(timers, sc, i)
      ensures k < servos.Length ==> ServoFails(timers, sc, k)
      ensures forall i :: 0 <= i < servos.Length ==> servos[i] == ServoAfter(old(servos[i]), timers, sc, i, k)
      ensures configured == old(configured) + ServoConfigs(timers, sc, k)
    {
      var servoIndex := 0;
      while servoIndex < servos.Length
        invariant servoIndex <= servos.Length
        invariant forall i :: 0 <= i < servoIndex ==> !ServoFails(timers, sc, i)
        invariant forall i :: 0 <= i < servos.Length ==>
          servos[i] == if i < servoIndex then ServoDone(old(servos[i]), timers, sc, i) else old(servos[i])
        invariant configured == old(configured) + ServoConfigs(timers, sc, servoIndex)
      {
        var tag := sc.ioTags[servoIndex];
        if tag == 0 {
          servoIndex := servoIndex + 1;
          continue;
        }
        servos[servoIndex] := servos[servoIndex].(io := tag);
        var timer := Allocate(timers, tag, OwnerServo, servoIndex);
        if timer.None? {
          break;
        }
        PwmOutConfig(servos, servoIndex, timer.value, PWM_TIMER_1MHZ, PWM_TIMER_1MHZ / sc.servoPwmRate, sc.servoCenterPulse, false);
        servos[servoIndex] := servos[servoIndex].(enabled := true);
        servoIndex := servoIndex + 1;
      }
      k := servoIndex;
    }
  }
}
