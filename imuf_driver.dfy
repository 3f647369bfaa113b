/**
 * The transport of the IMUF9001 driver of accgyro_imuf9001_betaflight.c:
 * the frame checksum routine and the two-phase listening/echo handshake of
 * imuf9001SendReceiveCommand, first as functions of the board's ready line
 * and link, then as the driver's own loops proved against them. The
 * device session built on it is the module ImufSession.
 */
module ImufDriver {
  import opened Wrappers
  import opened Crc32
  import opened Frames
  import opened Platform
  import opened Accgyro

  const IMUF_FIRMWARE_MIN_VERSION: bv16 := 106
  /** The version recorded when identification fails. */
  const UNKNOWN_VERSION: bv16 := 9999
  const IMUF_NOT_CALIBRATING: bv32 := 0
  const IMUF_IS_CALIBRATING: bv32 := 1

  /** Initial value of failCount: one unit per 1 ms poll of the ready line. */
  const FAIL_BUDGET: int := 5000
  /** Extra units a ready poll takes from failCount. */
  const READY_COST: int := 100
  const CONFIRM_ATTEMPTS: int := 100
  /** No call makes more listening-phase exchanges than this (101 * 50 > 5000). */
  const MAX_PROBES: nat := 50
  const WHOAMI_ATTEMPTS: nat := 5
  const SETUP_ATTEMPTS: nat := 10
  /** param10's high half, the filter pattern order. */
  const PTN_ORDER: bv32 := 2

  function Last<T>(s: seq<T>): T
    requires s != []
  {
    s[|s| - 1]
  }

  // ---------------------------------------------------------------------
  // Frame checksum

  /** getCrcImuf9001: reset the engine, then feed it `size` words. */
  method GetCrc(data: seq<bv32>, size: nat) returns (crc: bv32)
    requires size <= |data|
    ensures crc == Checksum(data[..size])
  {
    crc := INIT;
    var x := 0;
    while x < size
      invariant x <= size
      invariant crc == Checksum(data[..x])
    {
      assert data[..x + 1] == data[..x] + [data[x]];
      ChecksumSnoc(data[..x], data[x]);
      crc := Feed(crc, data[x]);
      x := x + 1;
    }
  }

  /** The receiver's test of a reply: the checksum of its first eleven
      words against its crc word. */
  method CheckReply(reply: Frame) returns (valid: bool)
    ensures valid == CrcValid(reply)
  {
    var crc := GetCrc(reply, CHECKED_WORDS);
    valid := crc == reply[CRC_WORD];
  }

  /** `frame.command = op; frame.crc = getCrcImuf9001(&frame, 11);` */
  method Reseal(f: Frame, op: bv32) returns (g: Frame)
    ensures g == Seal(f, op)
  {
    g := f[0 := op];
    var crc := GetCrc(g, CHECKED_WORDS);
    g := g[CRC_WORD := crc];
  }

  // ---------------------------------------------------------------------
  // Two-phase handshake: specification

  /** One SPI exchange of the handshake: a listening-phase probe, or the
      confirming exchange that follows a listening acknowledgement. */
  datatype Step = Probe(tx: Frame, rx: Frame) | Confirm(tx: Frame, rx: Frame)

  /** The frame the command is built from: a copy of *data, or zeros. */
  function Payload(data: Option<Frame>): Frame {
    if data.Some? then data.value else ZERO_FRAME
  }

  /**
   * What a handshake runs against: the ready line, the link, the check it
   * applies to every reply (the driver's is `CrcValid`), the command, and
   * the two frames it sends — the command sealed over the payload, and
   * the same payload rewritten to IMUF_COMMAND_NONE.
   */
  datatype Env = Env(ready: nat -> bool, link: Link, check: Frame -> bool, cmd: bv32,
                     cmdFrame: Frame, noneFrame: Frame)

  /** The frame the listening loop sends: the sealed command until a
      listening acknowledgement has been seen, the IMUF_COMMAND_NONE frame
      from then on. */
  function Sent(env: Env, acked: bool): Frame {
    if acked then env.noneFrame else env.cmdFrame
  }

  /** A reply that passes the check and says the device is listening. */
  predicate Acks(env: Env, f: Frame) {
    env.check(f) && IsListening(Opcode(f))
  }

  /** A reply that passes the check and carries the command back. */
  predicate EchoesCmd(env: Env, f: Frame) {
    env.check(f) && Opcode(f) == env.cmd
  }

  predicate IsAck(env: Env, s: Step) {
    s.Probe? && Acks(env, s.rx)
  }

  predicate IsEcho(env: Env, s: Step) {
    s.Confirm? && EchoesCmd(env, s.rx)
  }

  /** The first poll in [q, end) at which the ready line is high: where
      the confirmation loop, polling once per attempt, gets its exchange. */
  function FirstReady(ready: nat -> bool, q: nat, end: nat): (r: Option<nat>)
    decreases end - q
    ensures r.Some? ==> q <= r.value < end && ready(r.value)
  {
    if q >= end then None
    else if ready(q) then Some(q)
    else FirstReady(ready, q + 1, end)
  }

  /** `FirstReady` finds the first ready poll of the range, and finds none
      only when the line stays low through all of it. */
  lemma {:induction false} FirstReadyIsFirst(ready: nat -> bool, q: nat, end: nat)
    ensures var r := FirstReady(ready, q, end);
      && (r.Some? ==> forall k :: q <= k < r.value ==> !ready(k))
      && (r.None? ==> forall k :: q <= k < end ==> !ready(k))
    decreases end - q
  {
    if q < end && !ready(q) {
      FirstReadyIsFirst(ready, q + 1, end);
    }
  }

  /** What one iteration of the listening loop did: the exchanges it made,
      the poll count it left, whether an acknowledgement has now been seen,
      and whether it returned with 1. */
  datatype Turn = Turn(made: seq<Step>, polls: nat, acked: bool, echoed: bool)

  /** One iteration of the listening loop, at poll `p` with `e` exchanges
      made before it. */
  function Iterate(env: Env, acked: bool, p: nat, e: nat): Turn {
    if !env.ready(p) then Turn([], p + 1, acked, false)
    else
      var probe := Probe(Sent(env, acked), Reply(env.link, e, Sent(env, acked)));
      if !Acks(env, probe.rx) then Turn([probe], p + 1, acked, false)
      else match FirstReady(env.ready, p + 1, p + 1 + CONFIRM_ATTEMPTS)
        case None => Turn([probe], p + 1 + CONFIRM_ATTEMPTS, true, false)
        case Some(q) =>
          var confirm := Confirm(env.noneFrame, Reply(env.link, e + 1, env.noneFrame));
          Turn([probe, confirm], q + 1, true, EchoesCmd(env, confirm.rx))
  }

  /** The four ways an iteration goes: no ready line; a probe that is not
      acknowledged; an acknowledgement and no ready poll for the
      confirmation; an acknowledgement and a confirming exchange. */
  lemma IterateCases(env: Env, acked: bool, p: nat, e: nat)
    ensures var rx := Reply(env.link, e, Sent(env, acked));
      var found := FirstReady(env.ready, p + 1, p + 1 + CONFIRM_ATTEMPTS);
      var crx := Reply(env.link, e + 1, env.noneFrame);
      && (!env.ready(p) ==> Iterate(env, acked, p, e) == Turn([], p + 1, acked, false))
      && (env.ready(p) && !Acks(env, rx) ==>
            Iterate(env, acked, p, e) == Turn([Probe(Sent(env, acked), rx)], p + 1, acked, false))
      && (env.ready(p) && Acks(env, rx) && found.None? ==>
            Iterate(env, acked, p, e) == Turn([Probe(Sent(env, acked), rx)], p + 1 + CONFIRM_ATTEMPTS, true, false))
      && (env.ready(p) && Acks(env, rx) && found.Some? ==>
            Iterate(env, acked, p, e)
              == Turn([Probe(Sent(env, acked), rx), Confirm(env.noneFrame, crx)], found.value + 1, true, EchoesCmd(env, crx)))
  {
  }

  /** The outcome of a handshake: its return value, the exchanges in order
      and the poll count it left. */
  datatype Run = Run(ok: bool, steps: seq<Step>, polls: nat)

  function After(made: seq<Step>, r: Run): Run {
    Run(r.ok, made + r.steps, r.polls)
  }

  /** The listening loop with `fc` left in failCount: each poll takes 1 and
      each ready poll 100 more. */
  function Listen(env: Env, fc: int, acked: bool, p: nat, e: nat): Run
    decreases fc, 1
  {
    if fc <= 0 then Run(false, [], p) else ListenBody(env, fc, acked, p, e)
  }

  /** One pass through the body of the listening loop, and the passes after it. */
  function ListenBody(env: Env, fc: int, acked: bool, p: nat, e: nat): Run
    requires fc > 0
    decreases fc, 0
  {
    var t := Iterate(env, acked, p, e);
    if t.echoed then Run(true, t.made, t.polls)
    else After(t.made, Listen(env, fc - 1 - (if env.ready(p) then READY_COST else 0), t.acked, t.polls, e + |t.made|))
  }

  /** imuf9001SendReceiveCommand from poll `p`, with `e` exchanges made before it. */
  function Handshake(env: Env, p: nat, e: nat): Run {
    Listen(env, FAIL_BUDGET, false, p, e)
  }

  // ---------------------------------------------------------------------
  // Two-phase handshake: the events it records

  /** One iteration's opening: 1 ms, a read of the ready line and, when it
      is high, the exchange of `tx`. */
  function ProbeEvents(high: bool, tx: Frame, rx: Frame): seq<Event> {
    [Delay(1000), Poll(high)] + (if high then [Exchange(tx, rx)] else [])
  }

  /** One confirmation attempt: the settle delay, 1 ms, a read of the ready
      line and, when it is high, 1 ms more and the exchange of `tx`. */
  function AttemptEvents(cmd: bv32, high: bool, tx: Frame, rx: Frame): seq<Event> {
    SettleEvents(cmd) + [Delay(1000), Poll(high)] + (if high then [Delay(1000), Exchange(tx, rx)] else [])
  }

  /** The 600 ms a full erase and the 10 ms a firmware write wait before
      each confirmation attempt. */
  function SettleEvents(cmd: bv32): seq<Event> {
    if cmd == BL_ERASE_ALL then [Delay(600000)]
    else if cmd == BL_WRITE_FIRMWARES then [Delay(10000)]
    else []
  }

  /** The confirmation attempts from poll `q` up to the first ready one
      before `end`, sending `tx`; the one exchange they make gets `rx`. */
  function ConfirmEvents(ready: nat -> bool, cmd: bv32, tx: Frame, rx: Frame, q: nat, end: nat): seq<Event>
    decreases end - q
  {
    if q >= end then []
    else (AttemptEvents(cmd, ready(q), tx, rx)
          + (if ready(q) then [] else ConfirmEvents(ready, cmd, tx, rx, q + 1, end)))
  }

  /** The events of the iteration `Iterate` describes. */
  function IterateEvents(env: Env, acked: bool, p: nat, e: nat): seq<Event> {
    var tx := Sent(env, acked);
    var rx := Reply(env.link, e, tx);
    ProbeEvents(env.ready(p), tx, rx)
      + (if env.ready(p) && Acks(env, rx)
         then ConfirmEvents(env.ready, env.cmd, env.noneFrame, Reply(env.link, e + 1, env.noneFrame), p + 1, p + 1 + CONFIRM_ATTEMPTS)
         else [])
  }

  /** The events of the listening loop `Listen` describes. */
  function ListenEvents(env: Env, fc: int, acked: bool, p: nat, e: nat): seq<Event>
    decreases fc, 1
  {
    if fc <= 0 then [] else ListenEventsBody(env, fc, acked, p, e)
  }

  /** The events of one pass through the body of the listening loop, and of the passes after it. */
  function ListenEventsBody(env: Env, fc: int, acked: bool, p: nat, e: nat): seq<Event>
    requires fc > 0
    decreases fc, 0
  {
    var t := Iterate(env, acked, p, e);
    IterateEvents(env, acked, p, e)
      + (if t.echoed then [] else ListenEvents(env, fc - 1 - (if env.ready(p) then READY_COST else 0), t.acked, t.polls, e + |t.made|))
  }

  /** The delays, ready-line reads and exchanges of one call. */
  function HandshakeEvents(env: Env, p: nat, e: nat): seq<Event> {
    ListenEvents(env, FAIL_BUDGET, false, p, e)
  }

  /** `n` iterations that find the ready line low, each a 1 ms wait and
      then a read: the wait at every even position, the low read after it. */
  function Idle(n: nat): (t: seq<Event>)
    ensures |t| == 2 * n
  {
    seq(2 * n, k => if k % 2 == 0 then Delay(1000) else Poll(false))
  }

  // ---------------------------------------------------------------------
  // Two-phase handshake: properties

  /** Each reply is the link's answer to the frame sent, the first of
      `steps` being exchange number `e`. */
  predicate Exchanged(link: Link, e: nat, steps: seq<Step>)
    decreases |steps|
  {
    steps == [] || (steps[0].rx == Reply(link, e, steps[0].tx) && Exchanged(link, e + 1, steps[1..]))
  }

  /** Whether a listening acknowledgement has been seen after `steps`. */
  function AckedAfter(env: Env, acked: bool, steps: seq<Step>): bool
    decreases |steps|
  {
    if steps == [] then acked else AckedAfter(env, acked || IsAck(env, steps[0]), steps[1..])
  }

  /** Each exchange sends the sealed command until the first listening
      acknowledgement and the IMUF_COMMAND_NONE frame after it. */
  predicate SentFrom(env: Env, acked: bool, steps: seq<Step>)
    decreases |steps|
  {
    steps == [] || (steps[0].tx == Sent(env, acked) && SentFrom(env, acked || IsAck(env, steps[0]), steps[1..]))
  }

  /** Every confirming exchange comes right after a listening
      acknowledgement; `prevAck` says whether the step just before was one. */
  predicate ConfirmsFollow(env: Env, prevAck: bool, steps: seq<Step>)
    decreases |steps|
  {
    steps == [] || ((steps[0].Confirm? ==> prevAck) && ConfirmsFollow(env, IsAck(env, steps[0]), steps[1..]))
  }

  /** No exchange of `steps` is a confirmation echoing the command. */
  predicate NoEcho(env: Env, steps: seq<Step>)
    decreases |steps|
  {
    steps == [] || (!IsEcho(env, steps[0]) && NoEcho(env, steps[1..]))
  }

  /** The last exchange of `steps`, and no other, is a confirmation echoing
      the command. */
  predicate EndsAtEcho(env: Env, steps: seq<Step>)
    decreases |steps|
  {
    steps != [] &&
    if |steps| == 1 then IsEcho(env, steps[0]) else !IsEcho(env, steps[0]) && EndsAtEcho(env, steps[1..])
  }

  function ProbeCount(steps: seq<Step>): nat
    decreases |steps|
  {
    if steps == [] then 0 else (if steps[0].Probe? then 1 else 0) + ProbeCount(steps[1..])
  }

  lemma ConsAppend<T>(m: seq<T>, s: seq<T>)
    requires m != []
    ensures (m + s)[0] == m[0] && (m + s)[1..] == m[1..] + s
  {
  }

  lemma {:induction false} ExchangedAppend(link: Link, e: nat, a: seq<Step>, b: seq<Step>)
    requires Exchanged(link, e, a) && Exchanged(link, e + |a|, b)
    ensures Exchanged(link, e, a + b)
    decreases |a|
  {
    if a != [] {
      ConsAppend(a, b);
      ExchangedAppend(link, e + 1, a[1..], b);
    } else {
      assert a + b == b;
    }
  }

  lemma {:induction false} SentAppend(env: Env, acked: bool, a: seq<Step>, b: seq<Step>)
    requires SentFrom(env, acked, a) && SentFrom(env, AckedAfter(env, acked, a), b)
    ensures SentFrom(env, acked, a + b)
    decreases |a|
  {
    if a != [] {
      ConsAppend(a, b);
      SentAppend(env, acked || IsAck(env, a[0]), a[1..], b);
    } else {
      assert a + b == b;
    }
  }

  lemma {:induction false} FollowAppend(env: Env, prevAck: bool, a: seq<Step>, b: seq<Step>)
    requires ConfirmsFollow(env, prevAck, a) && ConfirmsFollow(env, false, b)
    ensures ConfirmsFollow(env, prevAck, a + b)
    decreases |a|
  {
    if a == [] {
      assert a + b == b;
      FollowAnyStart(env, prevAck, b);
    } else {
      ConsAppend(a, b);
      FollowAppend(env, IsAck(env, a[0]), a[1..], b);
    }
  }

  /** Steps that do not start with a confirmation follow acknowledgements
      whatever came before them. */
  lemma FollowAnyStart(env: Env, prevAck: bool, b: seq<Step>)
    requires ConfirmsFollow(env, false, b)
    ensures ConfirmsFollow(env, prevAck, b)
  {
  }

  lemma {:induction false} NoEchoAppend(env: Env, a: seq<Step>, b: seq<Step>)
    requires NoEcho(env, a)
    ensures NoEcho(env, a + b) == NoEcho(env, b)
    ensures EndsAtEcho(env, a + b) == EndsAtEcho(env, b)
    decreases |a|
  {
    if a == [] {
      assert a + b == b;
    } else {
      ConsAppend(a, b);
      NoEchoAppend(env, a[1..], b);
    }
  }

  lemma {:induction false} ProbeCountAppend(a: seq<Step>, b: seq<Step>)
    ensures ProbeCount(a + b) == ProbeCount(a) + ProbeCount(b)
    decreases |a|
  {
    if a == [] {
      assert a + b == b;
    } else {
      ConsAppend(a, b);
      ProbeCountAppend(a[1..], b);
    }
  }

  /** What one iteration makes: a probe of the frame `Sent` selects when the
      ready line is high and, after an acknowledgement that is confirmed,
      the confirmation of the IMUF_COMMAND_NONE frame that follows it. */
  lemma IterateMade(env: Env, acked: bool, p: nat, e: nat)
    ensures var t := Iterate(env, acked, p, e);
      && Exchanged(env.link, e, t.made)
      && SentFrom(env, acked, t.made)
      && t.acked == AckedAfter(env, acked, t.made)
      && ConfirmsFollow(env, false, t.made)
      && (t.echoed ==> EndsAtEcho(env, t.made))
      && (!t.echoed ==> NoEcho(env, t.made))
      && ProbeCount(t.made) == (if env.ready(p) then 1 else 0)
      && p < t.polls <= p + 1 + (if env.ready(p) then CONFIRM_ATTEMPTS else 0)
      && (!env.ready(p) ==> t == Turn([], p + 1, acked, false))
  {
    var t := Iterate(env, acked, p, e);
    if |t.made| == 2 {
      var probe, confirm := t.made[0], t.made[1];
      assert t.made[1..] == [confirm];
      assert t.made[1..][1..] == [];
      assert AckedAfter(env, true, [confirm]) == AckedAfter(env, true, []);
      assert ProbeCount([confirm]) == ProbeCount([]);
    } else if |t.made| == 1 {
      assert t.made[1..] == [];
    }
  }

  /** The replies of a handshake are the link's answers. */
  lemma {:induction false} ListenExchanged(env: Env, fc: int, acked: bool, p: nat, e: nat)
    ensures Exchanged(env.link, e, Listen(env, fc, acked, p, e).steps)
    decreases fc
  {
    if fc > 0 {
      var t := Iterate(env, acked, p, e);
      IterateMade(env, acked, p, e);
      if !t.echoed {
        var fc' := fc - 1 - (if env.ready(p) then READY_COST else 0);
        ListenExchanged(env, fc', t.acked, t.polls, e + |t.made|);
        ExchangedAppend(env.link, e, t.made, Listen(env, fc', t.acked, t.polls, e + |t.made|).steps);
      }
    }
  }

  /** A handshake sends the sealed command until the first listening
      acknowledgement, and the IMUF_COMMAND_NONE frame after it. */
  lemma {:induction false} ListenSent(env: Env, fc: int, acked: bool, p: nat, e: nat)
    ensures SentFrom(env, acked, Listen(env, fc, acked, p, e).steps)
    decreases fc
  {
    if fc > 0 {
      var t := Iterate(env, acked, p, e);
      IterateMade(env, acked, p, e);
      if !t.echoed {
        var fc' := fc - 1 - (if env.ready(p) then READY_COST else 0);
        ListenSent(env, fc', t.acked, t.polls, e + |t.made|);
        SentAppend(env, acked, t.made, Listen(env, fc', t.acked, t.polls, e + |t.made|).steps);
      }
    }
  }

  /** In a handshake every confirming exchange comes right after a listening
      acknowledgement. */
  lemma {:induction false} ListenFollows(env: Env, fc: int, acked: bool, p: nat, e: nat)
    ensures ConfirmsFollow(env, false, Listen(env, fc, acked, p, e).steps)
    decreases fc
  {
    if fc > 0 {
      var t := Iterate(env, acked, p, e);
      IterateMade(env, acked, p, e);
      if !t.echoed {
        var fc' := fc - 1 - (if env.ready(p) then READY_COST else 0);
        ListenFollows(env, fc', t.acked, t.polls, e + |t.made|);
        FollowAppend(env, false, t.made, Listen(env, fc', t.acked, t.polls, e + |t.made|).steps);
      }
    }
  }

  /** A handshake returns 1 exactly when its last exchange is a confirmation
      echoing the command, and no earlier exchange is one. */
  lemma {:induction false} ListenOutcome(env: Env, fc: int, acked: bool, p: nat, e: nat)
    ensures var r := Listen(env, fc, acked, p, e);
      (r.ok ==> EndsAtEcho(env, r.steps)) && (!r.ok ==> NoEcho(env, r.steps))
    decreases fc
  {
    if fc > 0 {
      var t := Iterate(env, acked, p, e);
      IterateMade(env, acked, p, e);
      if !t.echoed {
        var fc' := fc - 1 - (if env.ready(p) then READY_COST else 0);
        ListenOutcome(env, fc', t.acked, t.polls, e + |t.made|);
        NoEchoAppend(env, t.made, Listen(env, fc', t.acked, t.polls, e + |t.made|).steps);
      }
    }
  }

  /** Every probe takes 101 (READY_COST + 1) from failCount, so at most
      (fc + 100) / 101 are made; the polls made are bounded likewise. */
  lemma {:induction false} ListenBudget(env: Env, fc: int, acked: bool, p: nat, e: nat)
    requires -READY_COST <= fc
    ensures var r := Listen(env, fc, acked, p, e);
      && ProbeCount(r.steps) * 101 <= fc + READY_COST
      && p <= r.polls <= p + fc + READY_COST
      && (fc > 0 ==> p < r.polls)
    decreases fc
  {
    if fc > 0 {
      var t := Iterate(env, acked, p, e);
      IterateMade(env, acked, p, e);
      if !t.echoed {
        var fc' := fc - 1 - (if env.ready(p) then READY_COST else 0);
        ListenBudget(env, fc', t.acked, t.polls, e + |t.made|);
        ProbeCountAppend(t.made, Listen(env, fc', t.acked, t.polls, e + |t.made|).steps);
      }
    }
  }

  /** With the ready line low at every poll, the loop only polls: `fc`
      polls, no exchange, and 0 returned. */
  lemma {:induction false} ListenNeverReady(env: Env, fc: int, acked: bool, p: nat, e: nat)
    requires forall q :: p <= q < p + fc ==> !env.ready(q)
    ensures Listen(env, fc, acked, p, e) == Run(false, [], if fc <= 0 then p else p + fc)
    decreases fc
  {
    if fc > 0 {
      IterateMade(env, acked, p, e);
      ListenNeverReady(env, fc - 1, acked, p + 1, e);
    }
  }

  /**
   * Over a loopback link a handshake never returns 1: the acknowledged probe
   * can only have carried a listening command, while the confirmation sends
   * the IMUF_COMMAND_NONE frame, whose opcode cannot echo it.
   */
  lemma {:induction false} ListenLoopback(env: Env, fc: int, acked: bool, p: nat, e: nat)
    requires env.link.Loopback?
    requires Echoable(env)
    ensures !Listen(env, fc, acked, p, e).ok
    decreases fc
  {
    if fc > 0 {
      var t := Iterate(env, acked, p, e);
      if env.ready(p) && Acks(env, Reply(env.link, e, Sent(env, acked))) {
        assert !acked;
      }
      if !t.echoed {
        ListenLoopback(env, fc - 1 - (if env.ready(p) then READY_COST else 0), t.acked, t.polls, e + |t.made|);
      }
    }
  }

  /** Over a loopback link each reply is the frame sent; a listening
      acknowledgement therefore only ever answers the sealed command, and
      only when the command is itself a listening opcode. */
  lemma {:induction false} LoopbackAcks(env: Env, e: nat, acked: bool, steps: seq<Step>)
    requires env.link.Loopback? && Echoable(env)
    requires Exchanged(env.link, e, steps) && SentFrom(env, acked, steps)
    ensures forall i :: 0 <= i < |steps| ==> steps[i].rx == steps[i].tx
    ensures forall i :: 0 <= i < |steps| && IsAck(env, steps[i]) ==>
      steps[i].tx == env.cmdFrame && IsListening(env.cmd)
    decreases |steps|
  {
    if steps != [] {
      var rest := steps[1..];
      LoopbackAcks(env, e + 1, acked || IsAck(env, steps[0]), rest);
      assert IsAck(env, steps[0]) ==> steps[0].tx == env.cmdFrame by {
        if steps[0].tx == env.noneFrame {
          assert Opcode(steps[0].rx) == IMUF_COMMAND_NONE;
        }
      }
      forall i | 1 <= i < |steps|
        ensures steps[i] == rest[i - 1]
      {
      }
    }
  }

  /** The frames a call builds from the payload and the command. */
  function CallEnv(ready: nat -> bool, link: Link, cmd: bv32, data: Option<Frame>): Env {
    Env(ready, link, CrcValid, cmd, Seal(Payload(data), cmd), Seal(Payload(data), IMUF_COMMAND_NONE))
  }

  /**
   * What imuf9001SendReceiveCommand promises: the replies are the link's
   * answers; the sealed command is sent until the first listening
   * acknowledgement and the IMUF_COMMAND_NONE frame after it; confirmations
   * follow acknowledgements; it returns 1 exactly when the last exchange is
   * the first confirmation that echoes the command; at most 50 probes and
   * 5100 polls are made; a ready line that never rises means 5000 polls and
   * no exchange; and over a loopback link it never returns 1.
   */
  lemma HandshakeProperties(ready: nat -> bool, link: Link, cmd: bv32, data: Option<Frame>, p: nat, e: nat)
    ensures var env := CallEnv(ready, link, cmd, data);
      var r := Handshake(env, p, e);
      && Exchanged(link, e, r.steps)
      && SentFrom(env, false, r.steps)
      && ConfirmsFollow(env, false, r.steps)
      && (r.ok ==> EndsAtEcho(env, r.steps))
      && (!r.ok ==> NoEcho(env, r.steps))
      && ProbeCount(r.steps) <= MAX_PROBES
      && p < r.polls <= p + FAIL_BUDGET + READY_COST
      && ((forall q :: p <= q < p + FAIL_BUDGET ==> !ready(q)) ==> r == Run(false, [], p + FAIL_BUDGET))
      && (link.Loopback? ==> !r.ok)
  {
    var env := CallEnv(ready, link, cmd, data);
    ListenExchanged(env, FAIL_BUDGET, false, p, e);
    ListenSent(env, FAIL_BUDGET, false, p, e);
    ListenFollows(env, FAIL_BUDGET, false, p, e);
    ListenOutcome(env, FAIL_BUDGET, false, p, e);
    HandshakePolls(env, p, e);
    if forall q :: p <= q < p + FAIL_BUDGET ==> !ready(q) {
      HandshakeSilent(env, p, e);
    }
    if link.Loopback? {
      HandshakeLoopback(env, p, e);
    }
  }

  /** Over the loopback transport, a call's replies are the frames it sent,
      and a listening acknowledgement is only possible when the command is
      IMUF_COMMAND_LISTENING or BL_LISTENING. */
  lemma HandshakeLoopbackAcks(ready: nat -> bool, cmd: bv32, data: Option<Frame>, p: nat, e: nat)
    ensures var env := CallEnv(ready, Loopback, cmd, data);
      var r := Handshake(env, p, e);
      && (forall i :: 0 <= i < |r.steps| ==> r.steps[i].rx == r.steps[i].tx)
      && (forall i :: 0 <= i < |r.steps| && IsAck(env, r.steps[i]) ==> IsListening(cmd))
  {
    var env := CallEnv(ready, Loopback, cmd, data);
    HandshakeProperties(ready, Loopback, cmd, data, p, e);
    LoopbackAcks(env, e, false, Handshake(env, p, e).steps);
  }

  /** The polls of one call: at least one, at most 5100. */
  lemma HandshakePolls(env: Env, p: nat, e: nat)
    ensures var r := Handshake(env, p, e);
      && ProbeCount(r.steps) <= MAX_PROBES
      && p < r.polls <= p + FAIL_BUDGET + READY_COST
  {
    ListenBudget(env, FAIL_BUDGET, false, p, e);
  }

  /** A call whose 5000 polls all find the ready line low fails after them
      without an exchange. */
  lemma HandshakeSilent(env: Env, p: nat, e: nat)
    requires forall q :: p <= q < p + FAIL_BUDGET ==> !env.ready(q)
    ensures Handshake(env, p, e) == Run(false, [], p + FAIL_BUDGET)
  {
    ListenNeverReady(env, FAIL_BUDGET, false, p, e);
  }

  /** With the ready line low for 5000 polls, a call records 5000 waits of
      1 ms, each followed by a read that finds the line low. */
  lemma HandshakeIdle(env: Env, p: nat, e: nat)
    requires forall q :: p <= q < p + FAIL_BUDGET ==> !env.ready(q)
    ensures HandshakeEvents(env, p, e) == Idle(FAIL_BUDGET)
  {
    ListenIdle(env, FAIL_BUDGET, false, p, e);
  }

  /** The frames of a call carry its command and IMUF_COMMAND_NONE. */
  predicate Echoable(env: Env) {
    Opcode(env.cmdFrame) == env.cmd && Opcode(env.noneFrame) == IMUF_COMMAND_NONE
  }

  /** A call over a loopback link fails. */
  lemma HandshakeLoopback(env: Env, p: nat, e: nat)
    requires env.link.Loopback? && Echoable(env)
    ensures !Handshake(env, p, e).ok
  {
    ListenLoopback(env, FAIL_BUDGET, false, p, e);
  }

  // ---------------------------------------------------------------------
  // Two-phase handshake: the events it records

  /** Every ready-line read comes right after a wait of 1 ms. */
  predicate PollsDelayed(t: seq<Event>) {
    forall k :: 0 <= k < |t| && t[k].Poll? ==> 0 < k && t[k - 1] == Delay(1000)
  }

  /** The ready-line reads among `t`. */
  function PollCount(t: seq<Event>): nat
    decreases |t|
  {
    if t == [] then 0 else (if t[0].Poll? then 1 else 0) + PollCount(t[1..])
  }

  lemma {:induction false} PollCountAppend(a: seq<Event>, b: seq<Event>)
    ensures PollCount(a + b) == PollCount(a) + PollCount(b)
    decreases |a|
  {
    if a == [] {
      assert a + b == b;
    } else {
      assert (a + b)[1..] == a[1..] + b;
      PollCountAppend(a[1..], b);
    }
  }

  lemma PollsDelayedAppend(a: seq<Event>, b: seq<Event>)
    requires PollsDelayed(a) && PollsDelayed(b)
    ensures PollsDelayed(a + b)
  {
    forall k | 0 <= k < |a + b| && (a + b)[k].Poll?
      ensures 0 < k && (a + b)[k - 1] == Delay(1000)
    {
      if k >= |a| {
        assert (a + b)[k] == b[k - |a|];
        assert (a + b)[k - 1] == b[k - |a| - 1];
      }
    }
  }

  /** The three facts the lemmas below establish about a stretch of events. */
  predicate WellTimed(t: seq<Event>) {
    AllTransport(t) && PollsDelayed(t)
  }

  lemma WellTimedAppend(a: seq<Event>, b: seq<Event>)
    requires WellTimed(a) && WellTimed(b)
    ensures WellTimed(a + b) && PollCount(a + b) == PollCount(a) + PollCount(b)
  {
    AllTransportAppend(a, b);
    PollsDelayedAppend(a, b);
    PollCountAppend(a, b);
  }

  /** A probe and a confirmation attempt each read the ready line once,
      after 1 ms, and record transport events only. */
  lemma BlockCounts(cmd: bv32, high: bool, tx: Frame, rx: Frame)
    ensures WellTimed(ProbeEvents(high, tx, rx)) && PollCount(ProbeEvents(high, tx, rx)) == 1
    ensures WellTimed(AttemptEvents(cmd, high, tx, rx)) && PollCount(AttemptEvents(cmd, high, tx, rx)) == 1
  {
    var poll := [Delay(1000), Poll(high)];
    assert poll[1..] == [Poll(high)] && poll[1..][1..] == [];
    var ex := [Exchange(tx, rx)];
    assert ex[1..] == [];
    var ex2 := [Delay(1000), Exchange(tx, rx)];
    assert ex2[1..] == ex;
    var tail := if high then ex else [];
    var tail2 := if high then ex2 else [];
    var settle := SettleEvents(cmd);
    assert settle == [] || (settle[1..] == [] && !settle[0].Poll?);
    WellTimedAppend(poll, tail);
    WellTimedAppend(settle, poll);
    WellTimedAppend(settle + poll, tail2);
  }

  /** The confirmation attempts poll once each, up to and including the
      first ready poll, or all of them when none is ready. */
  lemma {:induction false} ConfirmEventsShape(ready: nat -> bool, cmd: bv32, tx: Frame, rx: Frame, q: nat, end: nat)
    requires q <= end
    ensures var t := ConfirmEvents(ready, cmd, tx, rx, q, end);
      var found := FirstReady(ready, q, end);
      && WellTimed(t)
      && PollCount(t) == if found.Some? then found.value + 1 - q else end - q
    decreases end - q
  {
    if q < end {
      var a := AttemptEvents(cmd, ready(q), tx, rx);
      BlockCounts(cmd, ready(q), tx, rx);
      if ready(q) {
        WellTimedAppend(a, []);
      } else {
        ConfirmEventsShape(ready, cmd, tx, rx, q + 1, end);
        WellTimedAppend(a, ConfirmEvents(ready, cmd, tx, rx, q + 1, end));
      }
    }
  }

  /** An iteration's events poll exactly as often as `Iterate` counts. */
  lemma IterateEventsShape(env: Env, acked: bool, p: nat, e: nat)
    ensures var t := IterateEvents(env, acked, p, e);
      WellTimed(t) && PollCount(t) == Iterate(env, acked, p, e).polls - p
  {
    var tx := Sent(env, acked);
    var rx := Reply(env.link, e, tx);
    var pe := ProbeEvents(env.ready(p), tx, rx);
    BlockCounts(env.cmd, env.ready(p), tx, rx);
    if env.ready(p) && Acks(env, rx) {
      var end := p + 1 + CONFIRM_ATTEMPTS;
      ConfirmEventsShape(env.ready, env.cmd, env.noneFrame, Reply(env.link, e + 1, env.noneFrame), p + 1, end);
      WellTimedAppend(pe, ConfirmEvents(env.ready, env.cmd, env.noneFrame, Reply(env.link, e + 1, env.noneFrame), p + 1, end));
    } else {
      WellTimedAppend(pe, []);
    }
  }

  /** An iteration makes at least one poll; without the ready line it makes
      exactly that one and nothing else. */
  lemma IteratePolls(env: Env, acked: bool, p: nat, e: nat)
    ensures p < Iterate(env, acked, p, e).polls
    ensures !env.ready(p) ==> Iterate(env, acked, p, e) == Turn([], p + 1, acked, false)
  {
  }

  /** What an iteration records on each of its paths. */
  lemma IterateEventsCases(env: Env, acked: bool, p: nat, e: nat)
    ensures var tx := Sent(env, acked);
      var rx := Reply(env.link, e, tx);
      var ie := IterateEvents(env, acked, p, e);
      && (!env.ready(p) ==> ie == [Delay(1000), Poll(false)])
      && (env.ready(p) && !Acks(env, rx) ==> ie == ProbeEvents(true, tx, rx))
      && (env.ready(p) && Acks(env, rx) ==>
            ie == ProbeEvents(true, tx, rx)
              + ConfirmEvents(env.ready, env.cmd, env.noneFrame, Reply(env.link, e + 1, env.noneFrame), p + 1, p + 1 + CONFIRM_ATTEMPTS))
  {
  }

  /** The listening loop's events are transport events, every read of the
      ready line follows 1 ms of waiting, and there are as many reads as
      `Listen` counts polls. */
  predicate ListenShaped(env: Env, fc: int, acked: bool, p: nat, e: nat) {
    var t := ListenEvents(env, fc, acked, p, e);
    WellTimed(t) && PollCount(t) == Listen(env, fc, acked, p, e).polls - p
  }

  lemma {:induction false} ListenEventsShape(env: Env, fc: int, acked: bool, p: nat, e: nat)
    ensures ListenShaped(env, fc, acked, p, e)
    decreases fc
  {
    if fc > 0 {
      var t := Iterate(env, acked, p, e);
      if !t.echoed {
        ListenEventsShape(env, fc - 1 - (if env.ready(p) then READY_COST else 0), t.acked, t.polls, e + |t.made|);
      }
      ListenShapedStep(env, fc, acked, p, e);
    }
  }

  /** One iteration keeps the listening loop's events well timed. */
  lemma ListenShapedStep(env: Env, fc: int, acked: bool, p: nat, e: nat)
    requires fc > 0
    requires var t := Iterate(env, acked, p, e);
      !t.echoed ==> ListenShaped(env, fc - 1 - (if env.ready(p) then READY_COST else 0), t.acked, t.polls, e + |t.made|)
    ensures ListenShaped(env, fc, acked, p, e)
  {
    var t := Iterate(env, acked, p, e);
    var fc' := fc - 1 - (if env.ready(p) then READY_COST else 0);
    ListenUnfold(env, fc, acked, p, e);
    ListenEventsUnfold(env, fc, acked, p, e);
    IterateEventsShape(env, acked, p, e);
    if t.echoed {
      TimedJoin(IterateEvents(env, acked, p, e), [], ListenEvents(env, fc, acked, p, e), p, t.polls, t.polls);
    } else {
      ListenBudgetFloor(env, fc', t.acked, t.polls, e + |t.made|);
      TimedJoin(IterateEvents(env, acked, p, e), ListenEvents(env, fc', t.acked, t.polls, e + |t.made|),
                ListenEvents(env, fc, acked, p, e), p, t.polls, Listen(env, fc', t.acked, t.polls, e + |t.made|).polls);
    }
  }

  /** Two well-timed stretches, one after the other. */
  lemma TimedJoin(a: seq<Event>, b: seq<Event>, ab: seq<Event>, p: nat, q: nat, r: nat)
    requires ab == a + b && p <= q <= r
    requires WellTimed(a) && PollCount(a) == q - p
    requires WellTimed(b) && PollCount(b) == r - q
    ensures WellTimed(ab) && PollCount(ab) == r - p
  {
    WellTimedAppend(a, b);
  }

  /** One iteration of the loop, in both descriptions of it. */
  lemma ListenUnfold(env: Env, fc: int, acked: bool, p: nat, e: nat)
    requires fc > 0
    ensures var t := Iterate(env, acked, p, e);
      var fc' := fc - 1 - (if env.ready(p) then READY_COST else 0);
      && Listen(env, fc, acked, p, e).polls
           == (if t.echoed then t.polls else Listen(env, fc', t.acked, t.polls, e + |t.made|).polls)
      && p < t.polls
  {
    IteratePolls(env, acked, p, e);
  }

  /** The events of one iteration of the loop and of those after it. */
  lemma ListenEventsUnfold(env: Env, fc: int, acked: bool, p: nat, e: nat)
    requires fc > 0
    ensures var t := Iterate(env, acked, p, e);
      var fc' := fc - 1 - (if env.ready(p) then READY_COST else 0);
      ListenEvents(env, fc, acked, p, e)
        == IterateEvents(env, acked, p, e) + (if t.echoed then [] else ListenEvents(env, fc', t.acked, t.polls, e + |t.made|))
  {
  }

  /** The loop never moves the poll counter backwards. */
  lemma {:induction false} ListenBudgetFloor(env: Env, fc: int, acked: bool, p: nat, e: nat)
    ensures p <= Listen(env, fc, acked, p, e).polls
    decreases fc
  {
    if fc > 0 {
      var t := Iterate(env, acked, p, e);
      IteratePolls(env, acked, p, e);
      if !t.echoed {
        ListenBudgetFloor(env, fc - 1 - (if env.ready(p) then READY_COST else 0), t.acked, t.polls, e + |t.made|);
      }
    }
  }

  /** With the ready line low throughout, the loop records `fc` waits of
      1 ms, each followed by a read that finds the line low. */
  lemma {:induction false} ListenIdle(env: Env, fc: int, acked: bool, p: nat, e: nat)
    requires forall q :: p <= q < p + fc ==> !env.ready(q)
    ensures ListenEvents(env, fc, acked, p, e) == Idle(if fc <= 0 then 0 else fc)
    decreases fc
  {
    if fc > 0 {
      IteratePolls(env, acked, p, e);
      ListenIdle(env, fc - 1, acked, p + 1, e);
      assert IterateEvents(env, acked, p, e) == [Delay(1000), Poll(false)];
      IdleCons(fc);
    }
  }

  /** `n` idle iterations are one wait-and-read followed by `n - 1` more. */
  lemma IdleCons(n: nat)
    requires n > 0
    ensures Idle(n) == [Delay(1000), Poll(false)] + Idle(n - 1)
  {
    var t, u := Idle(n), [Delay(1000), Poll(false)] + Idle(n - 1);
    forall k | 2 <= k < |t|
      ensures t[k] == u[k]
    {
      assert k % 2 == (k - 2) % 2;
    }
  }

  /**
   * The events of one call: only delays, ready-line reads and exchanges;
   * every read after a 1 ms wait; one read per poll the call makes; and
   * with the ready line low for 5000 polls, exactly 5000 repetitions of a
   * 1 ms wait followed by a read that finds the line low.
   */
  lemma HandshakeTiming(env: Env, p: nat, e: nat)
    ensures var t := HandshakeEvents(env, p, e);
      && AllTransport(t) && PollsDelayed(t)
      && PollCount(t) == Handshake(env, p, e).polls - p
      && ((forall q :: p <= q < p + FAIL_BUDGET ==> !env.ready(q)) ==>
            t == Idle(FAIL_BUDGET) && |t| == 2 * FAIL_BUDGET
            && forall k :: 0 <= k < |t| ==> t[k] == if k % 2 == 0 then Delay(1000) else Poll(false))
  {
    ListenEventsShape(env, FAIL_BUDGET, false, p, e);
    if forall q :: p <= q < p + FAIL_BUDGET ==> !env.ready(q) {
      ListenIdle(env, FAIL_BUDGET, false, p, e);
    }
  }

  /** `t` followed by the confirmation attempts from poll `q` on is `goal`. */
  predicate ConfirmPending(t: seq<Event>, ready: nat -> bool, cmd: bv32, tx: Frame, rx: Frame, q: nat, end: nat,
                           goal: seq<Event>) {
    t + ConfirmEvents(ready, cmd, tx, rx, q, end) == goal
  }

  /** The step the confirmation loop takes through `ConfirmEvents`. */
  lemma ConfirmEventsStep(ready: nat -> bool, cmd: bv32, tx: Frame, rx: Frame, q: nat, end: nat,
                          t: seq<Event>, t': seq<Event>, high: bool, rx': Frame, goal: seq<Event>)
    requires q < end && high == ready(q) && (high ==> rx' == rx)
    requires ConfirmPending(t, ready, cmd, tx, rx, q, end, goal)
    requires t' == t + AttemptEvents(cmd, high, tx, rx')
    ensures high ==> t' == goal
    ensures !high ==> ConfirmPending(t', ready, cmd, tx, rx, q + 1, end, goal)
  {
    var a := AttemptEvents(cmd, high, tx, rx');
    assert a == AttemptEvents(cmd, high, tx, rx);
    var rest := if high then [] else ConfirmEvents(ready, cmd, tx, rx, q + 1, end);
    assert ConfirmEvents(ready, cmd, tx, rx, q, end) == a + rest;
    SeqAssoc(t, a, rest);
  }

  /** The step the listening loop takes through `ListenEvents`. */
  lemma ListenEventsStep(env: Env, t: seq<Event>, fc: int, acked: bool, p: nat, e: nat,
                         made: seq<Step>, p': nat, acked': bool, echoed: bool, fc': int, e': nat)
    requires fc > 0 && Turn(made, p', acked', echoed) == Iterate(env, acked, p, e)
    requires fc' == fc - 1 - (if env.ready(p) then READY_COST else 0) && e' == e + |made|
    ensures t + ListenEvents(env, fc, acked, p, e)
      == (t + IterateEvents(env, acked, p, e)) + (if echoed then [] else ListenEvents(env, fc', acked', p', e'))
  {
    var rest := if echoed then [] else ListenEvents(env, fc', acked', p', e');
    ListenEventsUnfold(env, fc, acked, p, e);
    SeqAssoc(t, IterateEvents(env, acked, p, e), rest);
  }

  lemma SeqAssoc<T>(a: seq<T>, b: seq<T>, c: seq<T>)
    ensures a + (b + c) == (a + b) + c
  {
  }

  // ---------------------------------------------------------------------
  // Two-phase handshake: the driver's code

  /** One iteration of the listening phase: 1 ms, a read of the ready line
      and, when it is high, the exchange of `command`. */
  method ProbeAttempt(hal: Board, command: Frame) returns (high: bool, rx: Frame)
    modifies hal
    ensures high == hal.ready(old(hal.polls)) && hal.polls == old(hal.polls) + 1
    ensures hal.exchanges == old(hal.exchanges) + (if high then 1 else 0)
    ensures high ==> rx == Reply(hal.link, old(hal.exchanges), command)
    ensures hal.trace == old(hal.trace) + ProbeEvents(high, command, rx)
  {
    hal.DelayMicroseconds(1000);
    high := hal.ReadReady();
    rx := ZERO_FRAME;
    if high {
      rx := hal.Transfer(command);
    }
  }

  /** The extra wait before each confirmation attempt: 600 ms after a full
      erase, 10 ms after a firmware write, none otherwise. */
  method SettleDelay(hal: Board, commandToSend: bv32)
    modifies hal
    ensures hal.polls == old(hal.polls) && hal.exchanges == old(hal.exchanges)
    ensures hal.trace == old(hal.trace) + SettleEvents(commandToSend)
  {
    if commandToSend == BL_ERASE_ALL {
      hal.DelayMs(600);
    }
    if commandToSend == BL_WRITE_FIRMWARES {
      hal.DelayMs(10);
    }
  }

  /** One confirmation attempt: the settle delay, 1 ms, a read of the ready
      line and, when it is high, 1 ms more and the exchange of `sent`. */
  method ConfirmAttempt(hal: Board, commandToSend: bv32, sent: Frame) returns (high: bool, rx: Frame)
    modifies hal
    ensures high == hal.ready(old(hal.polls)) && hal.polls == old(hal.polls) + 1
    ensures hal.exchanges == old(hal.exchanges) + (if high then 1 else 0)
    ensures high ==> rx == Reply(hal.link, old(hal.exchanges), sent)
    ensures hal.trace == old(hal.trace) + AttemptEvents(commandToSend, high, sent, rx)
  {
    SettleDelay(hal, commandToSend);
    hal.DelayMicroseconds(1000);
    high := hal.ReadReady();
    rx := ZERO_FRAME;
    if high {
      hal.DelayMicroseconds(1000);
      rx := hal.Transfer(sent);
    }
  }


  /**
   * The confirmation loop of imuf9001SendReceiveCommand (its inner `for`
   * over `attempt`), entered after a listening acknowledgement. Each attempt
   * rewrites the command to IMUF_COMMAND_NONE and reseals it, waits, and
   * polls the ready line; the first ready poll sets `attempt` to 100, so at
   * most one confirming exchange happens.
   */
  method ConfirmPhase(hal: Board, commandToSend: bv32, command: Frame, reply: Frame)
    returns (ok: bool, sent: Frame, reply': Frame, ghost confirmed: bool)
    modifies hal
    ensures var found := FirstReady(hal.ready, old(hal.polls), old(hal.polls) + CONFIRM_ATTEMPTS);
      && (confirmed <==> found.Some?)
      && hal.polls == if found.Some? then found.value + 1 else old(hal.polls) + CONFIRM_ATTEMPTS
    ensures sent == Seal(command, IMUF_COMMAND_NONE)
    ensures hal.exchanges == old(hal.exchanges) + (if confirmed then 1 else 0)
    ensures confirmed ==> reply' == Reply(hal.link, old(hal.exchanges), sent)
    ensures !confirmed ==> reply' == reply
    ensures ok <==> confirmed && CrcValid(reply') && Opcode(reply') == commandToSend
    ensures hal.trace == old(hal.trace)
      + ConfirmEvents(hal.ready, commandToSend, sent, Reply(hal.link, old(hal.exchanges), sent), old(hal.polls), old(hal.polls) + CONFIRM_ATTEMPTS)
  {
    ghost var t0 := hal.trace;
    ghost var q0 := hal.polls;
    ghost var e0 := hal.exchanges;
    sent, reply', ok, confirmed := command, reply, false, false;
    ghost var none := Seal(command, IMUF_COMMAND_NONE);
    SealTwice(command, IMUF_COMMAND_NONE, IMUF_COMMAND_NONE);
    ghost var end := q0 + CONFIRM_ATTEMPTS;
    ghost var found := FirstReady(hal.ready, q0, end);
    ghost var crx := Reply(hal.link, e0, none);
    ghost var goal := t0 + ConfirmEvents(hal.ready, commandToSend, none, crx, q0, end);
    var attempt := 0;
    while attempt < CONFIRM_ATTEMPTS
      invariant 0 <= attempt <= CONFIRM_ATTEMPTS + 1
      invariant confirmed <==> attempt == CONFIRM_ATTEMPTS + 1
      invariant attempt > 0 ==> sent == none
      invariant attempt == 0 ==> sent == command
      invariant !confirmed ==> hal.polls == q0 + attempt && found == FirstReady(hal.ready, hal.polls, end)
      invariant confirmed ==> q0 < hal.polls && found == Some(hal.polls - 1)
      invariant hal.exchanges == e0 + (if confirmed then 1 else 0)
      invariant confirmed ==> reply' == Reply(hal.link, e0, sent) && !(CrcValid(reply') && Opcode(reply') == commandToSend)
      invariant !confirmed ==> reply' == reply
      invariant !confirmed ==> ConfirmPending(hal.trace, hal.ready, commandToSend, none, crx, hal.polls, end, goal)
      invariant confirmed ==> hal.trace == goal
    {
      var high, rx;
      high, rx, sent := ConfirmRound(hal, commandToSend, sent, none, crx, end, goal);
      if high {
        attempt := CONFIRM_ATTEMPTS;
        reply' := rx;
        confirmed := true;
        var valid := CheckReply(reply');
        if valid && Opcode(reply') == commandToSend {
          ok := true;
          return;
        }
      }
      attempt := attempt + 1;
    }
  }

  /** One pass of the confirmation loop: the command rewritten to
      IMUF_COMMAND_NONE and resealed, then one attempt. */
  method ConfirmRound(hal: Board, commandToSend: bv32, sent: Frame,
                      ghost none: Frame, ghost crx: Frame, ghost end: nat, ghost goal: seq<Event>)
    returns (high: bool, rx: Frame, sent': Frame)
    requires Seal(sent, IMUF_COMMAND_NONE) == none && hal.polls < end
    requires crx == Reply(hal.link, hal.exchanges, none)
    requires ConfirmPending(hal.trace, hal.ready, commandToSend, none, crx, hal.polls, end, goal)
    modifies hal
    ensures sent' == none
    ensures high == hal.ready(old(hal.polls)) && hal.polls == old(hal.polls) + 1
    ensures hal.exchanges == old(hal.exchanges) + (if high then 1 else 0)
    ensures high ==> rx == crx && hal.trace == goal
    ensures !high ==> ConfirmPending(hal.trace, hal.ready, commandToSend, none, crx, hal.polls, end, goal)
    ensures FirstReady(hal.ready, old(hal.polls), end)
      == if high then Some(old(hal.polls)) else FirstReady(hal.ready, hal.polls, end)
  {
    sent' := Reseal(sent, IMUF_COMMAND_NONE);
    ghost var tb, pb := hal.trace, hal.polls;
    high, rx := ConfirmAttempt(hal, commandToSend, sent');
    ConfirmEventsStep(hal.ready, commandToSend, none, crx, pb, end, tb, hal.trace, high, rx, goal);
  }

  /**
   * One iteration of the listening loop of imuf9001SendReceiveCommand: 1 ms,
   * a poll, and when the ready line is high a probe and, after a listening
   * acknowledgement, the confirmation loop. `echoed` is the early return
   * with 1.
   */
  method ListenIteration(hal: Board, ghost env: Env, ghost acked: bool, commandToSend: bv32,
                         command: Frame, reply: Frame)
    returns (high: bool, echoed: bool, command': Frame, reply': Frame,
             ghost made: seq<Step>, ghost acked': bool)
    requires env.ready == hal.ready && env.link == hal.link && env.check == CrcValid
    requires env.cmd == commandToSend
    requires Seal(env.cmdFrame, IMUF_COMMAND_NONE) == env.noneFrame
    requires Seal(env.noneFrame, IMUF_COMMAND_NONE) == env.noneFrame
    requires command == Sent(env, acked)
    modifies hal
    ensures Turn(made, hal.polls, acked', echoed) == Iterate(env, acked, old(hal.polls), old(hal.exchanges))
    ensures high == hal.ready(old(hal.polls))
    ensures command' == Sent(env, acked')
    ensures reply' == if made == [] then reply else Last(made).rx
    ensures hal.exchanges == old(hal.exchanges) + |made|
    ensures hal.trace == old(hal.trace) + IterateEvents(env, acked, old(hal.polls), old(hal.exchanges))
  {
    ghost var t0, p0, e0 := hal.trace, hal.polls, hal.exchanges;
    command', reply', echoed, made, acked' := command, reply, false, [], acked;
    var rx;
    high, rx := ProbeAttempt(hal, command);
    if high {
      made := [Probe(command, rx)];
      reply' := rx;
      var valid := CheckReply(reply');
      if valid && IsListening(Opcode(reply')) {
        echoed, command', reply', made := ConfirmTurn(hal, env, acked, commandToSend, command, rx, p0, e0, t0);
        acked' := true;
      } else {
        IterateEventsCases(env, acked, p0, e0);
      }
    } else {
      IterateEventsCases(env, acked, p0, e0);
    }
  }

  /** The rest of an iteration whose probe at poll `p`, the `e`th exchange,
      was acknowledged: the confirmation loop, and the iteration it makes. */
  method ConfirmTurn(hal: Board, ghost env: Env, ghost acked: bool, commandToSend: bv32,
                     command: Frame, rx: Frame, ghost p: nat, ghost e: nat, ghost t0: seq<Event>)
    returns (echoed: bool, command': Frame, reply': Frame, ghost made: seq<Step>)
    requires env.ready == hal.ready && env.link == hal.link && env.check == CrcValid
    requires env.cmd == commandToSend
    requires Seal(env.cmdFrame, IMUF_COMMAND_NONE) == env.noneFrame
    requires Seal(env.noneFrame, IMUF_COMMAND_NONE) == env.noneFrame
    requires command == Sent(env, acked)
    requires env.ready(p) && hal.polls == p + 1 && hal.exchanges == e + 1
    requires rx == Reply(env.link, e, command) && Acks(env, rx)
    requires hal.trace == t0 + ProbeEvents(true, command, rx)
    modifies hal
    ensures Turn(made, hal.polls, true, echoed) == Iterate(env, acked, p, e)
    ensures made != [] && reply' == Last(made).rx
    ensures command' == env.noneFrame
    ensures hal.exchanges == e + |made|
    ensures hal.trace == t0 + IterateEvents(env, acked, p, e)
  {
    ghost var confirmed;
    ghost var t1 := hal.trace;
    echoed, command', reply', confirmed := ConfirmPhase(hal, commandToSend, command, rx);
    made := if confirmed then [Probe(command, rx), Confirm(command', reply')] else [Probe(command, rx)];
    IterateCases(env, acked, p, e);
    IterateEventsCases(env, acked, p, e);
    SeqAssoc(t0, ProbeEvents(true, command, rx), hal.trace[|t1|..]);
  }

  lemma AfterAfter(a: seq<Step>, b: seq<Step>, r: Run)
    ensures After(a, After(b, r)) == After(a + b, r)
  {
    assert a + (b + r.steps) == (a + b) + r.steps;
  }

  /** The listening loop after one more iteration, given what the iteration
      did, with `steps` before it: the echo ends it, otherwise it goes on
      from the new state. */
  lemma ListenNext(env: Env, steps: seq<Step>, fc: int, acked: bool, p: nat, e: nat,
                   made: seq<Step>, p': nat, acked': bool, echoed: bool, fc': int, e': nat)
    requires fc > 0 && Turn(made, p', acked', echoed) == Iterate(env, acked, p, e)
    requires fc' == fc - 1 - (if env.ready(p) then READY_COST else 0) && e' == e + |made|
    ensures echoed ==> After(steps, Listen(env, fc, acked, p, e)) == Run(true, steps + made, p')
    ensures !echoed ==> After(steps, Listen(env, fc, acked, p, e)) == After(steps + made, Listen(env, fc', acked', p', e'))
  {
    AfterAfter(steps, made, Listen(env, fc', acked', p', e'));
  }

  lemma LastAppend(a: seq<Step>, b: seq<Step>)
    ensures b == [] ==> a + b == a
    ensures b != [] ==> Last(a + b) == Last(b)
  {
  }

  /**
   * The listening loop of imuf9001SendReceiveCommand (its outer `while`
   * over failCount), sending `command`, the sealed command, until a
   * listening acknowledgement.
   */
  method ListenLoop(hal: Board, ghost env: Env, commandToSend: bv32, command: Frame)
    returns (ok: bool, reply: Frame, ghost steps: seq<Step>)
    requires env.ready == hal.ready && env.link == hal.link && env.check == CrcValid
    requires env.cmd == commandToSend && command == env.cmdFrame
    requires Seal(env.cmdFrame, IMUF_COMMAND_NONE) == env.noneFrame
    requires Seal(env.noneFrame, IMUF_COMMAND_NONE) == env.noneFrame
    modifies hal
    ensures Run(ok, steps, hal.polls) == Handshake(env, old(hal.polls), old(hal.exchanges))
    ensures hal.exchanges == old(hal.exchanges) + |steps|
    ensures reply == if steps == [] then ZERO_FRAME else Last(steps).rx
    ensures hal.trace == old(hal.trace) + HandshakeEvents(env, old(hal.polls), old(hal.exchanges))
  {
    ghost var t0 := hal.trace;
    ghost var p0 := hal.polls;
    ghost var e0 := hal.exchanges;
    ghost var acked := false;
    var failCount: int := FAIL_BUDGET;
    var command := command;
    reply := ZERO_FRAME;
    ok, steps := false, [];

    while failCount > 0
      invariant hal.exchanges == e0 + |steps|
      invariant command == Sent(env, acked)
      invariant reply == if steps == [] then ZERO_FRAME else Last(steps).rx
      invariant Handshake(env, p0, e0) == After(steps, Listen(env, failCount, acked, hal.polls, hal.exchanges))
      invariant hal.trace + ListenEvents(env, failCount, acked, hal.polls, hal.exchanges) == t0 + HandshakeEvents(env, p0, e0)
      decreases failCount
    {
      ghost var fb, pb, eb := failCount, hal.polls, hal.exchanges;
      failCount := failCount - 1;
      ghost var tb := hal.trace;
      var high, echoed, command', reply';
      ghost var made, acked';
      high, echoed, command', reply', made, acked' := ListenIteration(hal, env, acked, commandToSend, command, reply);
      if high {
        failCount := failCount - READY_COST;
      }
      ListenNext(env, steps, fb, acked, pb, eb, made, hal.polls, acked', echoed, failCount, hal.exchanges);
      ListenEventsStep(env, tb, fb, acked, pb, eb, made, hal.polls, acked', echoed, failCount, hal.exchanges);
      LastAppend(steps, made);
      steps, command, reply, acked := steps + made, command', reply', acked';
      if echoed {
        ok := true;
        return;
      }
    }
  }

  /**
   * imuf9001SendReceiveCommand. Returns true where the source returns 1.
   * `steps` lists the exchanges in order; what they are is `Handshake`,
   * whose properties `HandshakeProperties` states.
   */
  method SendReceiveCommand(hal: Board, commandToSend: bv32, data: Option<Frame>)
    returns (ok: bool, reply: Frame, ghost steps: seq<Step>)
    modifies hal
    ensures Run(ok, steps, hal.polls)
      == Handshake(CallEnv(hal.ready, hal.link, commandToSend, data), old(hal.polls), old(hal.exchanges))
    ensures hal.exchanges == old(hal.exchanges) + |steps|
    ensures reply == if steps == [] then ZERO_FRAME else Last(steps).rx
    ensures hal.trace == old(hal.trace)
      + HandshakeEvents(CallEnv(hal.ready, hal.link, commandToSend, data), old(hal.polls), old(hal.exchanges))
  {
    ghost var env := CallEnv(hal.ready, hal.link, commandToSend, data);
    SealTwice(Payload(data), commandToSend, IMUF_COMMAND_NONE);
    SealTwice(Payload(data), IMUF_COMMAND_NONE, IMUF_COMMAND_NONE);
    var command: Frame := Payload(data);
    command := Reseal(command, commandToSend);
    ok, reply, steps := ListenLoop(hal, env, commandToSend, command);
  }
}
