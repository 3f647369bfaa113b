/**
 * The device session of the IMUF9001 driver (accgyro_imuf9001_betaflight.c):
 * identification with a firmware gate (imuf9001Whoami), the reset sequence,
 * the parameter packing of setupImufParams, configuration with reset and
 * backoff (imufSpiGyroInit), the calibration flag, and the driver's detect,
 * init and read entry points.
 */
module ImufSession {
  import opened Wrappers
  import opened Frames
  import opened Platform
  import opened Accgyro
  import opened ImufDriver

  // ---------------------------------------------------------------------
  // Retry loops over the handshake: specification

  /** The frame a call leaves in its reply buffer. */
  function ReplyOf(r: Run): Frame {
    if r.steps == [] then ZERO_FRAME else Last(r.steps).rx
  }

  /** A call that returned 1 with a reply the caller takes. */
  predicate Accepted(accept: Frame -> bool, r: Run) {
    r.ok && accept(ReplyOf(r))
  }

  /** All calls but the last. */
  function Init(runs: seq<Run>): seq<Run>
    requires runs != []
  {
    runs[..|runs| - 1]
  }

  /** The exchanges the calls made, in total. */
  function Exchanges(runs: seq<Run>): nat
    decreases |runs|
  {
    if runs == [] then 0 else Exchanges(Init(runs)) + |Last(runs).steps|
  }

  /** The poll counter after the calls, when the first started at `p`. */
  function EndPolls(runs: seq<Run>, p: nat): nat {
    if runs == [] then p else Last(runs).polls
  }

  /**
   * `runs` are consecutive calls of the handshake of `env`, the first from
   * poll `p` and exchange `e`, each later one from where its predecessor
   * left both counters.
   */
  predicate Chain(env: Env, runs: seq<Run>, p: nat, e: nat)
    decreases |runs|
  {
    runs != [] ==>
      && Chain(env, Init(runs), p, e)
      && Last(runs) == Handshake(env, EndPolls(Init(runs), p), e + Exchanges(Init(runs)))
  }

  /** The events each of the calls `Chain` describes records, in order. */
  function CallEvents(env: Env, runs: seq<Run>, p: nat, e: nat): (calls: seq<seq<Event>>)
    decreases |runs|
    ensures |calls| == |runs|
  {
    if runs == [] then []
    else CallEvents(env, Init(runs), p, e) + [HandshakeEvents(env, EndPolls(Init(runs), p), e + Exchanges(Init(runs)))]
  }

  /** The events of consecutive calls, one after the other. */
  function Concat(calls: seq<seq<Event>>): seq<Event>
    decreases |calls|
  {
    if calls == [] then [] else Concat(calls[..|calls| - 1]) + calls[|calls| - 1]
  }

  lemma ConcatSnoc(calls: seq<seq<Event>>, x: seq<Event>)
    ensures Concat(calls + [x]) == Concat(calls) + x
  {
    var c := calls + [x];
    assert c[..|c| - 1] == calls;
  }

  /** A retry loop of at most `n` calls that stops at the first accepted
      one: none before the last is accepted, and unless the last is, all `n`
      were made. */
  predicate StopsAtFirst(accept: Frame -> bool, runs: seq<Run>, n: nat) {
    && 0 < |runs| <= n
    && NoneAccepted(accept, runs[..|runs| - 1])
    && (!Accepted(accept, Last(runs)) ==> |runs| == n)
  }

  predicate NoneAccepted(accept: Frame -> bool, runs: seq<Run>) {
    forall j :: 0 <= j < |runs| ==> !Accepted(accept, runs[j])
  }

  lemma NoneAcceptedSnoc(accept: Frame -> bool, runs: seq<Run>, r: Run)
    requires NoneAccepted(accept, runs)
    ensures (runs + [r])[..|runs|] == runs
    ensures !Accepted(accept, r) ==> NoneAccepted(accept, runs + [r])
  {
    assert forall j :: 0 <= j < |runs| ==> (runs + [r])[j] == runs[j];
  }

  lemma ChainSnoc(env: Env, runs: seq<Run>, p: nat, e: nat, r: Run)
    requires Chain(env, runs, p, e)
    requires r == Handshake(env, EndPolls(runs, p), e + Exchanges(runs))
    ensures Chain(env, runs + [r], p, e)
    ensures Exchanges(runs + [r]) == Exchanges(runs) + |r.steps|
    ensures EndPolls(runs + [r], p) == r.polls
  {
    assert Init(runs + [r]) == runs;
  }

  lemma CallEventsSnoc(env: Env, runs: seq<Run>, p: nat, e: nat, r: Run)
    ensures CallEvents(env, runs + [r], p, e)
      == CallEvents(env, runs, p, e) + [HandshakeEvents(env, EndPolls(runs, p), e + Exchanges(runs))]
  {
    assert Init(runs + [r]) == runs;
  }

  /** The events of a call depend on its counters only through their values. */
  lemma HandshakeEventsAt(env: Env, p: nat, e: nat, p': nat, e': nat)
    requires p == p' && e == e'
    ensures HandshakeEvents(env, p, e) == HandshakeEvents(env, p', e')
  {
  }

  /** Every call makes at least one poll and at most 5100. */
  lemma {:induction false} ChainPolls(env: Env, runs: seq<Run>, p: nat, e: nat)
    requires Chain(env, runs, p, e)
    ensures p + |runs| <= EndPolls(runs, p) <= p + |runs| * (FAIL_BUDGET + READY_COST)
    decreases |runs|
  {
    if runs != [] {
      var init := Init(runs);
      ChainPolls(env, init, p, e);
      HandshakePolls(env, EndPolls(init, p), e + Exchanges(init));
    }
  }

  /** A ready line that stays low for 5000 polls per call: every call fails
      without a single exchange and takes exactly its 5000 polls. */
  lemma {:induction false} ChainSilent(env: Env, runs: seq<Run>, p: nat, e: nat)
    requires Chain(env, runs, p, e)
    requires forall q :: p <= q < p + |runs| * FAIL_BUDGET ==> !env.ready(q)
    ensures forall j :: 0 <= j < |runs| ==> runs[j].steps == [] && !runs[j].ok
    ensures Exchanges(runs) == 0 && EndPolls(runs, p) == p + |runs| * FAIL_BUDGET
    decreases |runs|
  {
    if runs != [] {
      var init, n := Init(runs), |runs| - 1;
      ChainSilent(env, init, p, e);
      var q := p + n * FAIL_BUDGET;
      assert q + FAIL_BUDGET == p + |runs| * FAIL_BUDGET;
      HandshakeSilent(env, q, e);
      assert Last(runs) == Run(false, [], q + FAIL_BUDGET);
      assert forall j :: 0 <= j < n ==> runs[j] == init[j];
    }
  }

  /** With the ready line low throughout, each call records 5000 waits of
      1 ms, each followed by a read that finds the line low. */
  lemma {:induction false} ChainSilentEvents(env: Env, runs: seq<Run>, p: nat, e: nat)
    requires Chain(env, runs, p, e)
    requires forall q :: p <= q < p + |runs| * FAIL_BUDGET ==> !env.ready(q)
    ensures forall j :: 0 <= j < |runs| ==> CallEvents(env, runs, p, e)[j] == Idle(FAIL_BUDGET)
    decreases |runs|
  {
    if runs != [] {
      var init, n := Init(runs), |runs| - 1;
      ChainSilentEvents(env, init, p, e);
      ChainSilent(env, init, p, e);
      var q := p + n * FAIL_BUDGET;
      assert q + FAIL_BUDGET == p + |runs| * FAIL_BUDGET;
      HandshakeIdle(env, q, e);
      HandshakeEventsAt(env, EndPolls(init, p), e + Exchanges(init), q, e);
      CallEventsLast(env, runs, p, e);
      AllSnoc(CallEvents(env, init, p, e), HandshakeEvents(env, EndPolls(init, p), e + Exchanges(init)),
              HandshakeEvents(env, q, e), CallEvents(env, runs, p, e), Idle(FAIL_BUDGET));
    }
  }

  /** The last of the recorded calls is the handshake from where the others left off. */
  lemma CallEventsLast(env: Env, runs: seq<Run>, p: nat, e: nat)
    requires runs != []
    ensures CallEvents(env, runs, p, e)
      == CallEvents(env, Init(runs), p, e) + [HandshakeEvents(env, EndPolls(Init(runs), p), e + Exchanges(Init(runs)))]
  {
  }

  lemma AllSnoc<T>(a: seq<T>, x: T, z: T, b: seq<T>, y: T)
    requires b == a + [x] && x == z && z == y
    requires forall j :: 0 <= j < |a| ==> a[j] == y
    ensures forall j :: 0 <= j < |b| ==> b[j] == y
  {
    assert forall j :: 0 <= j < |a| ==> b[j] == a[j];
  }

  /** Over a loopback link no call returns 1. */
  lemma {:induction false} ChainLoopback(env: Env, runs: seq<Run>, p: nat, e: nat)
    requires env.link.Loopback? && Echoable(env)
    requires Chain(env, runs, p, e)
    ensures forall j :: 0 <= j < |runs| ==> !runs[j].ok
    decreases |runs|
  {
    if runs != [] {
      var init := Init(runs);
      ChainLoopback(env, init, p, e);
      HandshakeLoopback(env, EndPolls(init, p), e + Exchanges(init));
      assert forall j :: 0 <= j < |init| ==> runs[j] == init[j];
    }
  }

  // ---------------------------------------------------------------------
  // Identification

  /** The firmware field of the version record the device returns in param1.
      Its place in the word (the low half) is assumed: the record's layout
      is declared outside this model. */
  function Firmware(f: Frame): (v: bv16)
    ensures v as bv32 == f[1] & 0xFFFF
  {
    (f[1] & 0xFFFF) as bv16
  }

  /** The firmware gate of imuf9001Whoami. */
  predicate VersionOk(f: Frame) {
    Firmware(f) >= IMUF_FIRMWARE_MIN_VERSION
  }

  /** The handshake imuf9001Whoami repeats: REPORT_INFO without payload. */
  function WhoamiEnv(ready: nat -> bool, link: Link): Env {
    CallEnv(ready, link, IMUF_COMMAND_REPORT_INFO, None)
  }

  // ---------------------------------------------------------------------
  // Parameter packing

  /** `((hi & 0xFFFF) << 16) | (lo & 0xFFFF)`: two 16-bit settings, high half first. */
  function Pack16(hi: bv32, lo: bv32): (v: bv32)
    ensures HighHalf(v) == hi & 0xFFFF
    ensures LowHalf(v) == lo & 0xFFFF
  {
    ((hi & 0xFFFF) << 16) | (lo & 0xFFFF)
  }

  function HighHalf(v: bv32): bv32 { v >> 16 }
  function LowHalf(v: bv32): bv32 { v & 0xFFFF }

  /** Settings that fit in 16 bits come back unchanged. */
  lemma PackExact(hi: bv32, lo: bv32)
    requires hi < 0x1_0000 && lo < 0x1_0000
    ensures HighHalf(Pack16(hi, lo)) == hi && LowHalf(Pack16(hi, lo)) == lo
  {
    assert hi & 0xFFFF == hi;
    assert lo & 0xFFFF == lo;
  }

  /** Every word is the packing of its own halves. */
  lemma PackHalves(v: bv32)
    ensures Pack16(HighHalf(v), LowHalf(v)) == v
  {
  }

  /** The filter configuration macros setupImufParams reads (their values
      are defined in a header that is not part of this model). */
  datatype ImufSettings = ImufSettings(
    mode: bv32, rate: bv32, w: bv32,
    rollQ: bv32, pitchQ: bv32, yawQ: bv32,
    rollLpf: bv32, pitchLpf: bv32, yawLpf: bv32, accLpf: bv32)

  /** The frame setupImufParams leaves: params 2..5 and 10 packed, 7..9 zero,
      every other word as it was. */
  function ParamsFrame(data: Frame, s: ImufSettings): (d: Frame)
    ensures HighHalf(d[2]) == s.rate & 0xFFFF && LowHalf(d[2]) == s.w & 0xFFFF
    ensures HighHalf(d[3]) == s.rollQ & 0xFFFF && LowHalf(d[3]) == s.pitchQ & 0xFFFF
    ensures HighHalf(d[4]) == s.yawQ & 0xFFFF && LowHalf(d[4]) == s.rollLpf & 0xFFFF
    ensures HighHalf(d[5]) == s.pitchLpf & 0xFFFF && LowHalf(d[5]) == s.yawLpf & 0xFFFF
    ensures d[7] == 0 && d[8] == 0 && d[9] == 0
    ensures HighHalf(d[10]) == PTN_ORDER && LowHalf(d[10]) == s.accLpf & 0xFFFF
    ensures forall i :: 0 <= i < FRAME_WORDS && (i < 2 || i == 6 || i > 10) ==> d[i] == data[i]
  {
    assert PTN_ORDER & 0xFFFF == PTN_ORDER;
    data[2 := Pack16(s.rate, s.w)][3 := Pack16(s.rollQ, s.pitchQ)]
        [4 := Pack16(s.yawQ, s.rollLpf)][5 := Pack16(s.pitchLpf, s.yawLpf)]
        [7 := 0][8 := 0][9 := 0][10 := Pack16(PTN_ORDER, s.accLpf)]
  }

  /** setupImufParams: writes the parameter words of `data` one by one. */
  method SetupImufParams(data: Frame, s: ImufSettings) returns (d: Frame)
    ensures d == ParamsFrame(data, s)
  {
    d := data;
    d := d[2 := Pack16(s.rate, s.w)];
    d := d[3 := Pack16(s.rollQ, s.pitchQ)];
    d := d[4 := Pack16(s.yawQ, s.rollLpf)];
    d := d[5 := Pack16(s.pitchLpf, s.yawLpf)];
    d := d[7 := 0];
    d := d[8 := 0];
    d := d[9 := 0];
    d := d[10 := Pack16(2, s.accLpf)];
  }

  /** The SETUP payload imufSpiGyroInit builds: a zeroed frame, param1 the
      mode setting, then setupImufParams. */
  function SetupFrame(s: ImufSettings): Frame {
    ParamsFrame(ZERO_FRAME[1 := s.mode], s)
  }

  // ---------------------------------------------------------------------
  // Reset and configuration: specification

  /** resetImuf9001: the pin low, 40 waits of 20 ms, the pin high, 100 ms. */
  function ResetEvents(): seq<Event> {
    [ResetLow] + Waits(40, 20000) + [ResetHigh, Delay(100000)]
  }

  /** What precedes attempt `k` of imufSpiGyroInit: nothing for the first;
      for every later one a reset (the pin low, 40 waits of 20 ms, the pin
      high, 100 ms) and then a wait of 300 * k ms. */
  function Backoff(k: nat): seq<Event> {
    if k == 0 then [] else ResetEvents() + [Delay(1000 * (300 * k))]
  }

  /** The shape of a backoff: 44 events, the wait of 300 * k ms last. */
  lemma BackoffShape(k: nat)
    requires k > 0
    ensures var b := Backoff(k);
      && |b| == 44 && b[0] == ResetLow && b[41] == ResetHigh && b[42] == Delay(100000)
      && (forall i :: 1 <= i <= 40 ==> b[i] == Delay(20000))
      && b[43] == Delay(300000 * k)
  {
  }

  /** The attempts made so far, each its backoff and then its call's own events. */
  function AttemptsTrace(sessions: seq<seq<Event>>): seq<Event>
    decreases |sessions|
  {
    if sessions == [] then []
    else
      var n := |sessions| - 1;
      AttemptsTrace(sessions[..n]) + Backoff(n) + sessions[n]
  }

  /** The events of imufSpiGyroInit: the attempts, then mpuGyroInit when one succeeded. */
  function InitTrace(sessions: seq<seq<Event>>, ok: bool): seq<Event> {
    AttemptsTrace(sessions) + (if ok then [GyroInitHook] else [])
  }

  /** Each call's events are transport events only. */
  predicate TransportOnly(sessions: seq<seq<Event>>)
    decreases |sessions|
  {
    sessions != [] ==> TransportOnly(sessions[..|sessions| - 1]) && AllTransport(sessions[|sessions| - 1])
  }

  /** The trace after one more attempt, from the trace `tb` after its backoff. */
  lemma AttemptsTraceStep(t0: seq<Event>, sessions: seq<seq<Event>>, tb: seq<Event>, x: seq<Event>, t: seq<Event>)
    requires tb == (t0 + AttemptsTrace(sessions)) + Backoff(|sessions|) && t == tb + x
    ensures t == t0 + AttemptsTrace(sessions + [x])
  {
    AttemptsTraceSnoc(sessions, x);
    AppendAssoc(t0 + AttemptsTrace(sessions), Backoff(|sessions|), x);
    AppendAssoc(t0, AttemptsTrace(sessions) + Backoff(|sessions|), x);
    AppendAssoc(t0, AttemptsTrace(sessions), Backoff(|sessions|));
  }

  /** One more call appends its events. */
  lemma ConcatStep(t0: seq<Event>, calls: seq<seq<Event>>, tb: seq<Event>, x: seq<Event>, t: seq<Event>)
    requires tb == t0 + Concat(calls) && t == tb + x
    ensures t == t0 + Concat(calls + [x])
  {
    ConcatSnoc(calls, x);
    AppendAssoc(t0, Concat(calls), x);
  }

  /** One more attempt appends its backoff and its events. */
  lemma AttemptsTraceSnoc(a: seq<seq<Event>>, x: seq<Event>)
    ensures AttemptsTrace(a + [x]) == AttemptsTrace(a) + Backoff(|a|) + x
  {
    var b := a + [x];
    assert b[..|b| - 1] == a;
    assert b[|b| - 1] == x;
  }

  /** Neither a reset nor a backoff nor a call's transport calls mpuGyroInit. */
  lemma {:induction false} NoHookInAttempts(sessions: seq<seq<Event>>)
    requires TransportOnly(sessions)
    ensures GyroInitHook !in AttemptsTrace(sessions)
    decreases |sessions|
  {
    if sessions != [] {
      var n := |sessions| - 1;
      assert GyroInitHook !in Waits(40, 20000);
      assert GyroInitHook !in Backoff(n);
      assert GyroInitHook !in sessions[n] by {
        assert AllTransport(sessions[n]);
      }
      NoHookInAttempts(sessions[..n]);
    }
  }

  /** mpuGyroInit is called exactly when a SETUP call succeeded. */
  lemma HookIffSuccess(sessions: seq<seq<Event>>, ok: bool)
    requires TransportOnly(sessions)
    ensures GyroInitHook in InitTrace(sessions, ok) <==> ok
  {
    NoHookInAttempts(sessions);
  }

  /** The handshake imufSpiGyroInit repeats: SETUP with the settings payload. */
  function SetupEnv(ready: nat -> bool, link: Link, s: ImufSettings): Env {
    CallEnv(ready, link, IMUF_COMMAND_SETUP, Some(SetupFrame(s)))
  }

  /** imufSpiGyroInit reads nothing back from a SETUP call that returned 1:
      it takes the call whatever reply it carries. */
  predicate SetupAcceptsAny(f: Frame) { true }

  lemma AppendAssoc<T>(a: seq<T>, b: seq<T>, c: seq<T>)
    ensures (a + b) + c == a + (b + c)
  {
  }

  /** Each of consecutive calls records transport events only. */
  lemma {:induction false} CallEventsTransport(env: Env, runs: seq<Run>, p: nat, e: nat)
    ensures TransportOnly(CallEvents(env, runs, p, e))
    decreases |runs|
  {
    if runs != [] {
      var init := Init(runs);
      CallEventsTransport(env, init, p, e);
      HandshakeTransport(env, EndPolls(init, p), e + Exchanges(init));
      CallEventsLast(env, runs, p, e);
      TransportOnlySnoc(CallEvents(env, init, p, e), HandshakeEvents(env, EndPolls(init, p), e + Exchanges(init)),
                        CallEvents(env, runs, p, e));
    }
  }

  /** A call records transport events only. */
  lemma HandshakeTransport(env: Env, p: nat, e: nat)
    ensures AllTransport(HandshakeEvents(env, p, e))
  {
    HandshakeTiming(env, p, e);
  }

  lemma TransportOnlySnoc(a: seq<seq<Event>>, x: seq<Event>, b: seq<seq<Event>>)
    requires b == a + [x] && TransportOnly(a) && AllTransport(x)
    ensures TransportOnly(b)
  {
    assert b[..|b| - 1] == a;
  }

  /** One more call of a retry loop: imuf9001SendReceiveCommand from where
      the previous calls left the counters. */
  method CallAgain(hal: Board, cmd: bv32, data: Option<Frame>, ghost runs: seq<Run>, ghost p0: nat, ghost e0: nat)
    returns (ok: bool, reply: Frame, ghost run: Run, ghost events: seq<Event>)
    requires Chain(CallEnv(hal.ready, hal.link, cmd, data), runs, p0, e0)
    requires hal.polls == EndPolls(runs, p0) && hal.exchanges == e0 + Exchanges(runs)
    modifies hal
    ensures Chain(CallEnv(hal.ready, hal.link, cmd, data), runs + [run], p0, e0)
    ensures hal.polls == EndPolls(runs + [run], p0) && hal.exchanges == e0 + Exchanges(runs + [run])
    ensures run.ok == ok && ReplyOf(run) == reply
    ensures events == HandshakeEvents(CallEnv(hal.ready, hal.link, cmd, data), EndPolls(runs, p0), e0 + Exchanges(runs))
    ensures hal.trace == old(hal.trace) + events
    ensures CallEvents(CallEnv(hal.ready, hal.link, cmd, data), runs + [run], p0, e0)
      == CallEvents(CallEnv(hal.ready, hal.link, cmd, data), runs, p0, e0) + [events]
  {
    ghost var env, p, e := CallEnv(hal.ready, hal.link, cmd, data), hal.polls, hal.exchanges;
    ghost var steps;
    ok, reply, steps := SendReceiveCommand(hal, cmd, data);
    run := Run(ok, steps, hal.polls);
    events := HandshakeEvents(env, p, e);
    HandshakeEventsAt(env, p, e, EndPolls(runs, p0), e0 + Exchanges(runs));
    ChainSnoc(env, runs, p0, e0, run);
    CallEventsSnoc(env, runs, p0, e0, run);
  }

  // ---------------------------------------------------------------------
  // The driver's state and entry points

  /** The driver's global state: imufCurrentVersion, isImufCalibrating and
      imufDev, with the filter settings it was built with. */
  class Imuf9001 {
    var currentVersion: bv16
    var isCalibrating: bv32
    var imufDev: GyroDev?
    const settings: ImufSettings

    /** The globals' initial values. */
    constructor (settings: ImufSettings)
      ensures currentVersion == IMUF_FIRMWARE_MIN_VERSION
      ensures isCalibrating == IMUF_NOT_CALIBRATING && imufDev == null
      ensures this.settings == settings
    {
      currentVersion := IMUF_FIRMWARE_MIN_VERSION;
      isCalibrating := IMUF_NOT_CALIBRATING;
      imufDev := null;
      this.settings := settings;
    }

    /**
     * imuf9001Whoami: up to 5 REPORT_INFO calls. A call that returns 1
     * records the reported firmware; the first one at or above the minimum
     * version ends the loop with IMUF_9001_SPI. Otherwise the version is
     * set to 9999 and the result is 0.
     */
    method Whoami(hal: Board, gyro: GyroDev) returns (r: DetectTag, ghost runs: seq<Run>)
      modifies this, hal
      ensures Chain(WhoamiEnv(hal.ready, hal.link), runs, old(hal.polls), old(hal.exchanges))
      ensures StopsAtFirst(VersionOk, runs, WHOAMI_ATTEMPTS)
      ensures hal.polls == EndPolls(runs, old(hal.polls))
      ensures hal.exchanges == old(hal.exchanges) + Exchanges(runs)
      ensures r == if Accepted(VersionOk, Last(runs)) then Imuf9001Spi else NotDetected
      ensures currentVersion
        == if Accepted(VersionOk, Last(runs)) then Firmware(ReplyOf(Last(runs))) else UNKNOWN_VERSION
      ensures imufDev == gyro && isCalibrating == old(isCalibrating)
      ensures hal.trace
        == old(hal.trace) + Concat(CallEvents(WhoamiEnv(hal.ready, hal.link), runs, old(hal.polls), old(hal.exchanges)))
    {
      imufDev := gyro;
      var found, version;
      found, version, runs := WhoamiCalls(hal);
      if found {
        currentVersion := version;
        r := Imuf9001Spi;
      } else {
        currentVersion := UNKNOWN_VERSION;
        r := NotDetected;
      }
    }

    /** imufStartCalibration */
    method StartCalibration()
      modifies this
      ensures isCalibrating == IMUF_IS_CALIBRATING
      ensures currentVersion == old(currentVersion) && imufDev == old(imufDev)
    {
      isCalibrating := IMUF_IS_CALIBRATING;
    }

    /** imufEndCalibration */
    method EndCalibration()
      modifies this
      ensures isCalibrating == IMUF_NOT_CALIBRATING
      ensures currentVersion == old(currentVersion) && imufDev == old(imufDev)
    {
      isCalibrating := IMUF_NOT_CALIBRATING;
    }

    /**
     * imufSpiGyroInit: builds the SETUP payload, then makes up to 10 calls;
     * attempt k >= 1 is preceded by initImuf9001 and a 300 * k ms wait. The
     * first call that returns 1 is followed by mpuGyroInit; when none does,
     * nothing more happens. `sessions` are the calls' own events.
     */
    method GyroInit(hal: Board) returns (ghost runs: seq<Run>, ghost sessions: seq<seq<Event>>)
      modifies hal
      ensures Chain(SetupEnv(hal.ready, hal.link, settings), runs, old(hal.polls), old(hal.exchanges))
      ensures StopsAtFirst(SetupAcceptsAny, runs, SETUP_ATTEMPTS)
      ensures hal.polls == EndPolls(runs, old(hal.polls))
      ensures hal.exchanges == old(hal.exchanges) + Exchanges(runs)
      ensures sessions == CallEvents(SetupEnv(hal.ready, hal.link, settings), runs, old(hal.polls), old(hal.exchanges))
      ensures TransportOnly(sessions)
      ensures hal.trace == old(hal.trace) + InitTrace(sessions, Last(runs).ok)
    {
      var rxData := ZERO_FRAME;
      rxData := rxData[1 := settings.mode];
      rxData := SetupImufParams(rxData, settings);
      ghost var t0 := hal.trace;
      var ok;
      ok, runs, sessions := SetupRetries(hal, rxData, SetupEnv(hal.ready, hal.link, settings));
      CallEventsTransport(SetupEnv(hal.ready, hal.link, settings), runs, old(hal.polls), old(hal.exchanges));
      if ok {
        hal.MpuGyroInit();
        AppendAssoc(t0, AttemptsTrace(sessions), [GyroInitHook]);
      }
    }
  }

  /** The REPORT_INFO loop of imuf9001Whoami: up to 5 calls, stopping at
      the first that returns 1 with a firmware at or above the minimum;
      `version` is that firmware when one is found. */
  method WhoamiCalls(hal: Board) returns (found: bool, version: bv16, ghost runs: seq<Run>)
    modifies hal
    ensures Chain(WhoamiEnv(hal.ready, hal.link), runs, old(hal.polls), old(hal.exchanges))
    ensures StopsAtFirst(VersionOk, runs, WHOAMI_ATTEMPTS)
    ensures hal.polls == EndPolls(runs, old(hal.polls))
    ensures hal.exchanges == old(hal.exchanges) + Exchanges(runs)
    ensures found == Accepted(VersionOk, Last(runs))
    ensures found ==> version == Firmware(ReplyOf(Last(runs)))
    ensures hal.trace
      == old(hal.trace) + Concat(CallEvents(WhoamiEnv(hal.ready, hal.link), runs, old(hal.polls), old(hal.exchanges)))
  {
    ghost var env := WhoamiEnv(hal.ready, hal.link);
    ghost var p0, e0, t0 := hal.polls, hal.exchanges, hal.trace;
    runs := [];
    var attempt := 0;
    found, version := false, 0;
    while attempt < WHOAMI_ATTEMPTS && !found
      invariant attempt <= WHOAMI_ATTEMPTS && |runs| == attempt
      invariant Chain(env, runs, p0, e0)
      invariant hal.polls == EndPolls(runs, p0) && hal.exchanges == e0 + Exchanges(runs)
      invariant found ==> runs != [] && Accepted(VersionOk, Last(runs))
      invariant found ==> version == Firmware(ReplyOf(Last(runs)))
      invariant NoneAccepted(VersionOk, if found then Init(runs) else runs)
      invariant hal.trace == t0 + Concat(CallEvents(env, runs, p0, e0))
    {
      found, version, runs := WhoamiAttempt(hal, runs, p0, e0, t0);
      attempt := attempt + 1;
    }
  }

  /** One REPORT_INFO call of imuf9001Whoami: `found` when it returned 1 with
      a firmware at or above the minimum, `version` the firmware it read. */
  method WhoamiAttempt(hal: Board, ghost runs: seq<Run>, ghost p0: nat, ghost e0: nat, ghost t0: seq<Event>)
      returns (found: bool, version: bv16, ghost runs': seq<Run>)
    modifies hal
    requires Chain(WhoamiEnv(hal.ready, hal.link), runs, p0, e0)
    requires hal.polls == EndPolls(runs, p0) && hal.exchanges == e0 + Exchanges(runs)
    requires NoneAccepted(VersionOk, runs)
    requires hal.trace == t0 + Concat(CallEvents(WhoamiEnv(hal.ready, hal.link), runs, p0, e0))
    ensures Chain(WhoamiEnv(hal.ready, hal.link), runs', p0, e0) && |runs'| == |runs| + 1
    ensures hal.polls == EndPolls(runs', p0) && hal.exchanges == e0 + Exchanges(runs')
    ensures found == Accepted(VersionOk, Last(runs'))
    ensures found ==> version == Firmware(ReplyOf(Last(runs')))
    ensures NoneAccepted(VersionOk, if found then Init(runs') else runs')
    ensures hal.trace == t0 + Concat(CallEvents(WhoamiEnv(hal.ready, hal.link), runs', p0, e0))
  {
    ghost var env := WhoamiEnv(hal.ready, hal.link);
    ghost var tb := hal.trace;
    var ok, reply;
    ghost var run, events;
    ok, reply, run, events := CallAgain(hal, IMUF_COMMAND_REPORT_INFO, None, runs, p0, e0);
    ConcatStep(t0, CallEvents(env, runs, p0, e0), tb, events, hal.trace);
    NoneAcceptedSnoc(VersionOk, runs, run);
    runs' := runs + [run];
    found, version := false, 0;
    if ok {
      version := Firmware(reply);
      found := version >= IMUF_FIRMWARE_MIN_VERSION;
    }
  }

  /** The retry loop of imufSpiGyroInit, sending `payload` with SETUP;
      `ok` is the last call's result. */
  method SetupRetries(hal: Board, payload: Frame, ghost env: Env)
      returns (ok: bool, ghost runs: seq<Run>, ghost sessions: seq<seq<Event>>)
    modifies hal
    requires env == CallEnv(hal.ready, hal.link, IMUF_COMMAND_SETUP, Some(payload))
    ensures Chain(env, runs, old(hal.polls), old(hal.exchanges))
    ensures StopsAtFirst(SetupAcceptsAny, runs, SETUP_ATTEMPTS)
    ensures hal.polls == EndPolls(runs, old(hal.polls))
    ensures hal.exchanges == old(hal.exchanges) + Exchanges(runs)
    ensures sessions == CallEvents(env, runs, old(hal.polls), old(hal.exchanges))
    ensures ok == Last(runs).ok && hal.trace == old(hal.trace) + AttemptsTrace(sessions)
  {
    ghost var p0, e0, t0 := hal.polls, hal.exchanges, hal.trace;
    runs, sessions := [], [];
    var attempt := 0;
    ok := false;
    while attempt < SETUP_ATTEMPTS && !ok
      invariant attempt <= SETUP_ATTEMPTS && |runs| == attempt
      invariant Chain(env, runs, p0, e0)
      invariant hal.polls == EndPolls(runs, p0) && hal.exchanges == e0 + Exchanges(runs)
      invariant runs != [] ==> ok == Last(runs).ok
      invariant ok ==> runs != []
      invariant NoneAccepted(SetupAcceptsAny, if ok then Init(runs) else runs)
      invariant sessions == CallEvents(env, runs, p0, e0) && hal.trace == t0 + AttemptsTrace(sessions)
    {
      ok, runs, sessions := SetupAttempt(hal, payload, env, attempt, runs, sessions, p0, e0, t0);
      attempt := attempt + 1;
    }
  }

  /** Attempt number `attempt` of imufSpiGyroInit: its backoff, then one call. */
  method SetupAttempt(hal: Board, payload: Frame, ghost env: Env, attempt: nat, ghost runs: seq<Run>, ghost sessions: seq<seq<Event>>,
                      ghost p0: nat, ghost e0: nat, ghost t0: seq<Event>)
      returns (ok: bool, ghost runs': seq<Run>, ghost sessions': seq<seq<Event>>)
    modifies hal
    requires env == CallEnv(hal.ready, hal.link, IMUF_COMMAND_SETUP, Some(payload))
    requires |runs| == attempt
    requires Chain(env, runs, p0, e0)
    requires hal.polls == EndPolls(runs, p0) && hal.exchanges == e0 + Exchanges(runs)
    requires NoneAccepted(SetupAcceptsAny, runs)
    requires sessions == CallEvents(env, runs, p0, e0) && hal.trace == t0 + AttemptsTrace(sessions)
    ensures attempt + 1 == |runs'|
    ensures Chain(env, runs', p0, e0)
    ensures hal.polls == EndPolls(runs', p0) && hal.exchanges == e0 + Exchanges(runs')
    ensures ok == Last(runs').ok
    ensures NoneAccepted(SetupAcceptsAny, if ok then Init(runs') else runs')
    ensures sessions' == CallEvents(env, runs', p0, e0) && hal.trace == t0 + AttemptsTrace(sessions')
  {
    RetryBackoff(hal, attempt);
    ghost var tb := hal.trace;
    var reply;
    ghost var run, session;
    ok, reply, run, session := CallAgain(hal, IMUF_COMMAND_SETUP, Some(payload), runs, p0, e0);
    AttemptsTraceStep(t0, sessions, tb, session, hal.trace);
    NoneAcceptedSnoc(SetupAcceptsAny, runs, run);
    runs', sessions' := runs + [run], sessions + [session];
  }

  /** The wait before attempt `attempt` of imufSpiGyroInit. */
  method RetryBackoff(hal: Board, attempt: nat)
    modifies hal
    ensures hal.trace == old(hal.trace) + Backoff(attempt)
    ensures hal.polls == old(hal.polls) && hal.exchanges == old(hal.exchanges)
  {
    if attempt > 0 {
      InitImuf9001(hal);
      hal.DelayMs(300 * attempt);
      AppendAssoc(old(hal.trace), ResetEvents(), [Delay(1000 * (300 * attempt))]);
    }
  }

  /** resetImuf9001 */
  method ResetImuf9001(hal: Board)
    modifies hal
    ensures hal.trace == old(hal.trace) + ResetEvents()
    ensures hal.polls == old(hal.polls) && hal.exchanges == old(hal.exchanges)
  {
    ghost var t0 := hal.trace;
    hal.WriteResetPin(false);
    for x := 0 to 40
      invariant hal.trace == t0 + [ResetLow] + Waits(x, 20000)
      invariant hal.polls == old(hal.polls) && hal.exchanges == old(hal.exchanges)
    {
      hal.DelayMs(20);
      assert Waits(x + 1, 20000) == Waits(x, 20000) + [Delay(20000)];
      AppendAssoc(t0 + [ResetLow], Waits(x, 20000), [Delay(20000)]);
    }
    hal.WriteResetPin(true);
    hal.DelayMs(100);
    assert ResetEvents() == [ResetLow] + Waits(40, 20000) + [ResetHigh] + [Delay(100000)];
  }

  /** initImuf9001: the reset sequence. The pin configuration that precedes it
      leaves no event in the trace. */
  method InitImuf9001(hal: Board)
    modifies hal
    ensures hal.trace == old(hal.trace) + ResetEvents()
    ensures hal.polls == old(hal.polls) && hal.exchanges == old(hal.exchanges)
  {
    ResetImuf9001(hal);
  }

  /** imuf9001SpiDetect: the device is assumed to be present. */
  function SpiDetect(): (r: DetectTag)
    ensures r == Imuf9001Spi
  {
    Imuf9001Spi
  }

  /** imufSpiGyroDetect: claims the gyro only when detection found IMUF_9001_SPI. */
  method GyroDetect(gyro: GyroDev) returns (found: bool)
    modifies gyro
    ensures found <==> old(gyro.detectedSensor) == Imuf9001Spi
    ensures found ==> gyro.initFn == ImufSpiGyroInit && gyro.readFn == ImufReadGyroData && gyro.scale == 1.0
    ensures !found ==> gyro.initFn == old(gyro.initFn) && gyro.readFn == old(gyro.readFn) && gyro.scale == old(gyro.scale)
    ensures gyro.detectedSensor == old(gyro.detectedSensor)
  {
    if gyro.detectedSensor != Imuf9001Spi {
      return false;
    }
    gyro.initFn := ImufSpiGyroInit;
    gyro.readFn := ImufReadGyroData;
    gyro.scale := 1.0;
    return true;
  }

  /** imufSpiAccInit */
  method AccInit(acc: AccDev)
    modifies acc
    ensures acc.acc1G == IMUF_ACC_1G
    ensures acc.initFn == old(acc.initFn) && acc.readFn == old(acc.readFn)
  {
    acc.acc1G := IMUF_ACC_1G;
  }

  /** imufSpiAccDetect: always claims the accelerometer. */
  method AccDetect(acc: AccDev) returns (found: bool)
    modifies acc
    ensures found
    ensures acc.initFn == ImufSpiAccInit && acc.readFn == ImufReadAccData
    ensures acc.acc1G == old(acc.acc1G)
  {
    acc.initFn := ImufSpiAccInit;
    acc.readFn := ImufReadAccData;
    return true;
  }

  /** imufReadGyroData: no sample is ever delivered. */
  function ReadGyroData(): (ok: bool)
    ensures !ok
  {
    false
  }

  /** imufReadAccData: no sample is ever delivered. */
  function ReadAccData(): (ok: bool)
    ensures !ok
  {
    false
  }
}
