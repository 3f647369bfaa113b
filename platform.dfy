/**
 * What the IMUF9001 driver calls but does not implement: the ready line
 * (the EXTI pin read with IORead), the SPI exchange of one frame, the reset
 * pin, the millisecond and microsecond delays, and the framework's
 * mpuGyroInit hook. The ready line and the device's replies are oracles;
 * delays, pin changes and calls are recorded in a ghost trace instead of
 * taking time.
 */
module Platform {
  import opened Frames

  datatype Event =
    | Delay(us: nat)           // delay(ms) is recorded as Delay(1000 * ms)
    | Poll(high: bool)         // one IORead of the ready line
    | Exchange(tx: Frame, rx: Frame)
    | ResetLow                 // reset pin driven low
    | ResetHigh                // reset pin released
    | GyroInitHook             // mpuGyroInit(gyro)

  /** The transfer behind imufSendReceiveSpiBlocking. */
  datatype Link =
    | Loopback                                  // memcpy(rx, tx, length)
    | Device(respond: (nat, Frame) -> Frame)    // reply to the k-th exchange

  /** The reply the link gives to the k-th exchange, which sends `tx`. */
  function Reply(link: Link, k: nat, tx: Frame): (rx: Frame)
    ensures link.Loopback? ==> rx == tx
  {
    match link
    case Loopback => tx
    case Device(respond) => respond(k, tx)
  }

  class Board {
    const ready: nat -> bool   // the level of the ready line at the k-th read
    const link: Link
    var polls: nat             // ready-line reads so far
    var exchanges: nat         // SPI exchanges so far
    ghost var trace: seq<Event>

    constructor (ready: nat -> bool, link: Link)
      ensures this.ready == ready && this.link == link
      ensures polls == 0 && exchanges == 0 && trace == []
    {
      this.ready := ready;
      this.link := link;
      polls, exchanges := 0, 0;
      trace := [];
    }

    /** delayMicroseconds(us) */
    method DelayMicroseconds(us: nat)
      modifies this
      ensures trace == old(trace) + [Delay(us)]
      ensures polls == old(polls) && exchanges == old(exchanges)
    {
      trace := trace + [Delay(us)];
    }

    /** delay(ms) */
    method DelayMs(ms: nat)
      modifies this
      ensures trace == old(trace) + [Delay(1000 * ms)]
      ensures polls == old(polls) && exchanges == old(exchanges)
    {
      trace := trace + [Delay(1000 * ms)];
    }

    /** IORead(extiPin) */
    method ReadReady() returns (high: bool)
      modifies this
      ensures high == ready(old(polls))
      ensures polls == old(polls) + 1 && exchanges == old(exchanges)
      ensures trace == old(trace) + [Poll(high)]
    {
      high := ready(polls);
      polls := polls + 1;
      trace := trace + [Poll(high)];
    }

    /** One full-frame SPI exchange; it always fills the receive buffer. */
    method Transfer(tx: Frame) returns (rx: Frame)
      modifies this
      ensures rx == Reply(link, old(exchanges), tx)
      ensures exchanges == old(exchanges) + 1 && polls == old(polls)
      ensures trace == old(trace) + [Exchange(tx, rx)]
    {
      rx := Reply(link, exchanges, tx);
      exchanges := exchanges + 1;
      trace := trace + [Exchange(tx, rx)];
    }

    /** gpio_write_pin(GPIOA, GPIO_Pin_4, high) */
    method WriteResetPin(high: bool)
      modifies this
      ensures trace == old(trace) + [if high then ResetHigh else ResetLow]
      ensures polls == old(polls) && exchanges == old(exchanges)
    {
      trace := trace + [if high then ResetHigh else ResetLow];
    }

    /** mpuGyroInit(gyro) */
    method MpuGyroInit()
      modifies this
      ensures trace == old(trace) + [GyroInitHook]
      ensures polls == old(polls) && exchanges == old(exchanges)
    {
      trace := trace + [GyroInitHook];
    }
  }

  /** `n` waits of `us` microseconds each. */
  function Waits(n: nat, us: nat): (w: seq<Event>)
    ensures |w| == n && forall i :: 0 <= i < n ==> w[i] == Delay(us)
  {
    seq(n, _ => Delay(us))
  }

  /** An event of the transport alone: a delay, a ready-line read or an exchange. */
  predicate IsTransport(e: Event) {
    e.Delay? || e.Poll? || e.Exchange?
  }

  predicate AllTransport(t: seq<Event>) {
    forall i :: 0 <= i < |t| ==> IsTransport(t[i])
  }

  lemma AllTransportAppend(a: seq<Event>, b: seq<Event>)
    requires AllTransport(a) && AllTransport(b)
    ensures AllTransport(a + b)
  {
    assert forall i :: |a| <= i < |a + b| ==> (a + b)[i] == b[i - |a|];
  }
}
