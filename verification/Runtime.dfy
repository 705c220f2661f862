/**
 The half-duplex packet runtime of src/platform/runtime.c. The backend's answers,
 the clock and the success of waveform preparation are arbitrary functions of how
 many calls were made before.
 */
module Runtime {
  import opened Bits
  import opened Fragmentation
  import opened Reassembly
  import opened PttTrace

  datatype State = RxIdle | TxWaitBusy | TxKeying | TxActive | TxTail | RxGuard

  datatype Status =
    | Ok
    | Idle
    | Busy
    | QueueFull
    | InvalidPacket
    | BufferTooSmall
    | TxFailed
    | TxTimeout
    | RxIncomplete
    | RxRejected

  datatype Stats = Stats(
    txPackets: nat, txBytes: nat, txFrames: nat, txFailures: nat, txBusyTimeouts: nat,
    rxPackets: nat, rxBytes: nat, rxRejects: nat)

  /** The first n fragments of a packet. */
  function Fragments(packet: seq<Byte>, payloadClass: nat, n: nat): seq<seq<Byte>>
    requires Sendable(packet, payloadClass) && n <= FragmentCount(|packet|, payloadClass)
  {
    if n == 0 then [] else Fragments(packet, payloadClass, n - 1) + [Fragment(packet, payloadClass, n - 1)]
  }

  /** Preparing and sending the first n fragments. */
  function SendCalls(packet: seq<Byte>, payloadClass: nat, n: nat): seq<Call>
    requires Sendable(packet, payloadClass) && n <= FragmentCount(|packet|, payloadClass)
  {
    if n == 0 then [] else SendCalls(packet, payloadClass, n - 1) + [Audio(true), Send(Fragment(packet, payloadClass, n - 1), true)]
  }

  lemma {:induction false} SendCallsAt(packet: seq<Byte>, payloadClass: nat, n: nat)
    requires Sendable(packet, payloadClass) && n <= FragmentCount(|packet|, payloadClass)
    ensures |SendCalls(packet, payloadClass, n)| == 2 * n
    ensures forall k | 0 <= k < n ::
      SendCalls(packet, payloadClass, n)[2 * k] == Audio(true)
      && SendCalls(packet, payloadClass, n)[2 * k + 1] == Send(Fragment(packet, payloadClass, k), true)
  {
    hide FragmentCount, Fragment;
    if n > 0 {
      SendCallsAt(packet, payloadClass, n - 1);
    }
  }

  /** The xorshift step of the persistence generator. */
  function NextRandom(x: bv32): bv32 {
    Left5(Right17(Left13(x)))
  }

  function Left13(x: bv32): bv32 {
    x ^ (x << 13)
  }

  function Right17(x: bv32): bv32 {
    x ^ (x >> 17)
  }

  function Left5(x: bv32): bv32 {
    x ^ (x << 5)
  }

  function Draw(x: bv32): nat {
    (x & 0xff) as nat
  }

  /** One more call and its effect on key and frames. */
  predicate Notes(before: seq<Call>, c: Call, after: seq<Call>) {
    && before <= after && KeyState(after) == NextKey(KeyState(before), c)
    && SentFrames(after) == SentFrames(before) + if c.Send? && c.ok then [c.frame] else []
  }

  /** When a series of busy observations counts from; zero is kept free for "not busy". */
  function Since(times: seq<nat>): nat
    requires times != []
  {
    if times[0] != 0 then times[0] else 1
  }

  /** The channel was busy at every observation of the series, the last one at least `limit` after the first. */
  predicate BusyFor(times: seq<nat>, limit: nat) {
    times != [] && Since(times) <= times[|times| - 1] && times[|times| - 1] - Since(times) >= limit
  }

  /** The calls end with these busy observations and nothing in between. */
  predicate BusyTail(calls: seq<Call>, times: seq<nat>) {
    && 2 * |times| <= |calls|
    && forall i | 0 <= i < |times| ::
      calls[|calls| - 2 * |times| + 2 * i] == NowIs(times[i]) && calls[|calls| - 2 * |times| + 2 * i + 1] == BusyIs(true)
  }

  lemma NoTail(calls: seq<Call>)
    ensures BusyTail(calls, [])
  {}

  lemma LongerTail(calls: seq<Call>, times: seq<nat>, now: nat)
    requires BusyTail(calls, times)
    ensures BusyTail(calls + [NowIs(now)] + [BusyIs(true)], times + [now])
  {
    var after, more := calls + [NowIs(now)] + [BusyIs(true)], times + [now];
    var start := |calls| - 2 * |times|;
    assert |after| - 2 * |more| == start;
    forall i | 0 <= i < |more| ensures after[start + 2 * i] == NowIs(more[i]) && after[start + 2 * i + 1] == BusyIs(true) {
      if i < |times| {
        assert calls[start + 2 * i] == NowIs(times[i]);
      }
    }
  }

  /** All fragments of the packet were sent, once each and in order, and the counters say so. */
  predicate AllSent(packet: seq<Byte>, payloadClass: nat, before: seq<seq<Byte>>, after: seq<seq<Byte>>, counts: Stats, now: Stats)
    requires Sendable(packet, payloadClass)
  {
    var n := FragmentCount(|packet|, payloadClass);
    && after == before + Fragments(packet, payloadClass, n)
    && now == counts.(txPackets := counts.txPackets + 1, txBytes := counts.txBytes + |packet|, txFrames := counts.txFrames + n)
  }

  /** The first n fragments were sent before a failure. */
  predicate FirstSent(n: nat, packet: seq<Byte>, payloadClass: nat, before: seq<seq<Byte>>, after: seq<seq<Byte>>, counts: Stats, now: Stats)
    requires Sendable(packet, payloadClass)
  {
    && n <= FragmentCount(|packet|, payloadClass) && after == before + Fragments(packet, payloadClass, n)
    && now == counts.(txFailures := counts.txFailures + 1, txFrames := counts.txFrames + n)
  }

  /** The clock and perhaps the channel were asked, then exactly these calls were made. */
  predicate FollowsListening(before: seq<Call>, calls: seq<Call>, after: seq<Call>) {
    || (|after| == |before| + 1 + |calls| && after[|before|].NowIs? && after[|before| + 1..] == calls)
    || (|after| == |before| + 2 + |calls| && after[|before|].NowIs? && after[|before| + 1].BusyIs? && after[|before| + 2..] == calls)
  }

  /** The clock was asked, and the channel if there is a way to ask. */
  predicate Listened(before: seq<Call>, after: seq<Call>, now: nat, busy: bool, senses: bool) {
    after == before + [NowIs(now)] + if senses then [BusyIs(busy)] else []
  }

  lemma ListenedClock(before: seq<Call>, after: seq<Call>, now: nat, busy: bool, senses: bool)
    requires Listened(before, after, now, busy, senses)
    ensures before <= after && |before| < |after| && after[|before|] == NowIs(now)
  {}

  lemma ListenedParts(before: seq<Call>, after: seq<Call>, now: nat, busy: bool, senses: bool)
    requires Listened(before, after, now, busy, senses) && (busy ==> senses)
    ensures busy ==> |after| == |before| + 2
  {}

  lemma AfterListening(before: seq<Call>, listened: seq<Call>, now: nat, busy: bool, senses: bool, calls: seq<Call>, after: seq<Call>)
    requires Listened(before, listened, now, busy, senses) && after == listened + calls
    ensures before <= after && FollowsListening(before, calls, after)
  {}

  /** Packets that `SubmitPacket` accepts. */
  predicate Legal(packets: seq<seq<Byte>>, mtu: nat) {
    forall i | 0 <= i < |packets| :: 0 < |packets[i]| <= mtu
  }

  lemma LegalHead(packets: seq<seq<Byte>>, mtu: nat)
    requires Legal(packets, mtu) && packets != []
    ensures 0 < |packets[0]| <= mtu && Legal(packets[1..], mtu)
  {}

  /** A packet that reassembly completes is not empty and within the MTU. */
  lemma CompleteIsLegal(c: Config, a: Assembly, e: Arrival)
    requires Pushed(c, a, e).1.Complete?
    ensures 0 < |Pushed(c, a, e).1.packet| <= c.mtu
  {}

  /** What a transmission attempt does to frames and counters, by its status. */
  ghost predicate Handled(status: Status, packet: seq<Byte>, payloadClass: nat, before: seq<seq<Byte>>, after: seq<seq<Byte>>, counts: Stats, now: Stats)
    requires Sendable(packet, payloadClass)
  {
    match status
    case Ok => AllSent(packet, payloadClass, before, after, counts, now)
    case TxFailed => exists n: nat :: FirstSent(n, packet, payloadClass, before, after, counts, now)
    case TxTimeout => after == before && now == counts.(txBusyTimeouts := counts.txBusyTimeouts + 1, txFailures := counts.txFailures + 1)
    case Busy => after == before && now == counts
    case _ => false
  }

  datatype Turn = Go | Wait | GiveUp

  class RuntimeState {
    const answers: nat -> bool
    const clock: nat -> nat
    const senses: bool
    const payloadClass: nat
    const busyTimeout: nat
    const rxGuard: nat
    const txRoom: nat
    const rxRoom: nat
    const assembler: Reassembler

    var state: State
    var txQueue: seq<seq<Byte>>
    var rxQueue: seq<seq<Byte>>
    var stats: Stats
    var busyStarted: nat
    var nextSlot: nat
    var random: bv32
    var lead: nat
    var tail: nat
    var persistence: nat
    var slotTime: nat
    var trace: seq<Call>

    /** Accepted submissions, delivered packets, and the times of the current unbroken series of busy observations. */
    ghost var submitted: nat
    ghost var delivered: nat
    ghost var busyTimes: seq<nat>

    ghost predicate Valid()
      reads this, assembler
    {
      && assembler.Valid() && assembler.config.payloadClass == payloadClass && busyTimeout > 0
      && Legal(txQueue, assembler.config.mtu) && Legal(rxQueue, assembler.config.mtu)
      && |txQueue| <= txRoom && |rxQueue| <= rxRoom
      && submitted == stats.txPackets + stats.txFailures + |txQueue|
      && stats.rxPackets == delivered + |rxQueue|
      && KeyState(trace) == Off
      && (state == RxIdle || state == TxWaitBusy)
      && (busyStarted == 0 <==> busyTimes == [])
      && (busyTimes != [] ==> busyStarted == Since(busyTimes))
      && BusyTail(trace, busyTimes)
    }

    /** `rtnc_runtime_init`, once its arguments have been accepted. */
    constructor (answers_: nat -> bool, clock_: nat -> nat, senses_: bool, reassembler: Reassembler,
                 busyTimeout_: nat, rxGuard_: nat, txRoom_: nat, rxRoom_: nat, lead_: nat, tail_: nat)
      requires reassembler.Valid() && busyTimeout_ > 0
      ensures Valid() && assembler == reassembler && txQueue == [] && rxQueue == [] && trace == [] && state == RxIdle
      ensures txRoom == txRoom_ && rxRoom == rxRoom_ && busyTimeout == busyTimeout_ && submitted == 0 && delivered == 0
      ensures random == 0x6d2b79f5 && persistence == 255 && slotTime == 100 && nextSlot == 0 && busyTimes == []
      ensures lead == lead_ && tail == tail_ && rxGuard == rxGuard_ && senses == senses_
    {
      answers, clock, senses, assembler := answers_, clock_, senses_, reassembler;
      payloadClass := reassembler.config.payloadClass;
      busyTimeout, rxGuard, txRoom, rxRoom := busyTimeout_, rxGuard_, txRoom_, rxRoom_;
      state, txQueue, rxQueue, stats := RxIdle, [], [], Stats(0, 0, 0, 0, 0, 0, 0, 0);
      busyStarted, nextSlot, random := 0, 0, 0x6d2b79f5;
      lead, tail, persistence, slotTime := lead_, tail_, 255, 100;
      trace, submitted, delivered, busyTimes := [], 0, 0, [];
    }

    // -------------------------------------------------------------- backend

    method SetPtt(on: bool) returns (ok: bool)
      modifies this`trace
      ensures trace == old(trace) + [Ptt(on, ok)] && Notes(old(trace), Ptt(on, ok), trace)
    {
      ok := answers(|trace|);
      OneMore(trace, Ptt(on, ok));
      trace := trace + [Ptt(on, ok)];
    }

    method SleepMs(ms: nat) returns (ok: bool)
      modifies this`trace
      ensures trace == old(trace) + [Sleep(ms, ok)] && Notes(old(trace), Sleep(ms, ok), trace)
    {
      ok := answers(|trace|);
      OneMore(trace, Sleep(ms, ok));
      trace := trace + [Sleep(ms, ok)];
    }

    method SendAudio(frame: seq<Byte>) returns (ok: bool)
      modifies this`trace
      ensures trace == old(trace) + [Send(frame, ok)] && Notes(old(trace), Send(frame, ok), trace)
    {
      ok := answers(|trace|);
      OneMore(trace, Send(frame, ok));
      trace := trace + [Send(frame, ok)];
    }

    /** Modulation and filtering of one fragment; a failure of the signal processing is an answer too. */
    method PrepareAudio() returns (ok: bool)
      modifies this`trace
      ensures trace == old(trace) + [Audio(ok)] && Notes(old(trace), Audio(ok), trace)
    {
      ok := answers(|trace|);
      OneMore(trace, Audio(ok));
      trace := trace + [Audio(ok)];
    }

    method Drain() returns (ok: bool)
      modifies this`trace
      ensures trace == old(trace) + [WaitAudio(ok)] && Notes(old(trace), WaitAudio(ok), trace)
    {
      ok := answers(|trace|);
      OneMore(trace, WaitAudio(ok));
      trace := trace + [WaitAudio(ok)];
    }

    method Now() returns (t: nat)
      modifies this`trace
      ensures trace == old(trace) + [NowIs(t)] && Notes(old(trace), NowIs(t), trace)
    {
      t := clock(|trace|);
      OneMore(trace, NowIs(t));
      trace := trace + [NowIs(t)];
    }

    method ChannelBusy() returns (busy: bool)
      modifies this`trace
      ensures senses ==> trace == old(trace) + [BusyIs(busy)] && Notes(old(trace), BusyIs(busy), trace)
      ensures !senses ==> !busy && trace == old(trace)
    {
      busy := false;
      if senses {
        busy := answers(|trace|);
        OneMore(trace, BusyIs(busy));
        trace := trace + [BusyIs(busy)];
      }
    }

    // -------------------------------------------------------------- submit

    method SubmitPacket(packet: seq<Byte>) returns (status: Status)
      requires Valid()
      modifies this`txQueue, this`submitted
      ensures Valid()
      ensures status == InvalidPacket <==> packet == [] || |packet| > assembler.config.mtu
      ensures status == QueueFull <==> 0 < |packet| <= assembler.config.mtu && |old(txQueue)| >= txRoom
      ensures status == Ok <==> 0 < |packet| <= assembler.config.mtu && |old(txQueue)| < txRoom
      ensures txQueue == if status == Ok then old(txQueue) + [packet] else old(txQueue)
      ensures submitted == old(submitted) + if status == Ok then 1 else 0
    {
      if |packet| == 0 || |packet| > assembler.config.mtu || FragmentCount(|packet|, payloadClass) == 0 {
        return InvalidPacket;
      }
      if |txQueue| >= txRoom {
        return QueueFull;
      }
      txQueue := txQueue + [packet];
      submitted := submitted + 1;
      return Ok;
    }

    // -------------------------------------------------------------- receive

    method AcceptFragment(fragment: seq<Byte>, now: nat) returns (status: Status)
      requires Valid()
      modifies this`rxQueue, this`stats, assembler, assembler.packet
      ensures Valid()
      ensures old(state) != RxIdle ==>
        status == RxRejected && assembler.State() == old(assembler.State()) && rxQueue == old(rxQueue) && stats == old(stats)
      ensures old(state) == RxIdle ==>
        var (next, outcome) := Pushed(assembler.config, old(assembler.State()), Arrival(fragment, now));
        && assembler.State() == next
        && (outcome == Incomplete ==> status == RxIncomplete && rxQueue == old(rxQueue) && stats == old(stats))
        && (outcome.Complete? && |old(rxQueue)| < rxRoom ==>
              && status == Ok && rxQueue == old(rxQueue) + [outcome.packet]
              && stats == old(stats).(rxPackets := old(stats).rxPackets + 1, rxBytes := old(stats).rxBytes + |outcome.packet|))
        && (outcome.Complete? && |old(rxQueue)| >= rxRoom ==>
              status == QueueFull && rxQueue == old(rxQueue) && stats == old(stats).(rxRejects := old(stats).rxRejects + 1))
        && (outcome != Incomplete && !outcome.Complete? ==>
              status == RxRejected && rxQueue == old(rxQueue) && stats == old(stats).(rxRejects := old(stats).rxRejects + 1))
    {
      hide Pushed, KeyState, BusyTail;
      if state != RxIdle {
        return RxRejected;
      }
      ghost var before := assembler.State();
      var outcome := assembler.Push(fragment, now);
      if outcome == Incomplete {
        return RxIncomplete;
      }
      if !outcome.Complete? {
        stats := stats.(rxRejects := stats.rxRejects + 1);
        return RxRejected;
      }
      if |rxQueue| >= rxRoom {
        stats := stats.(rxRejects := stats.rxRejects + 1);
        return QueueFull;
      }
      CompleteIsLegal(assembler.config, before, Arrival(fragment, now));
      rxQueue := rxQueue + [outcome.packet];
      stats := stats.(rxPackets := stats.rxPackets + 1, rxBytes := stats.rxBytes + |outcome.packet|);
      return Ok;
    }

    method ReceivePacket(capacity: nat) returns (status: Status, packet: seq<Byte>)
      requires Valid()
      modifies this`rxQueue, this`delivered
      ensures Valid()
      ensures status == Idle <==> old(rxQueue) == []
      ensures status == BufferTooSmall <==> old(rxQueue) != [] && capacity < |old(rxQueue)[0]|
      ensures status == Ok <==> old(rxQueue) != [] && capacity >= |old(rxQueue)[0]|
      ensures status == Ok ==> old(rxQueue) == [packet] + rxQueue && delivered == old(delivered) + 1
      ensures status != Ok ==> rxQueue == old(rxQueue) && delivered == old(delivered)
    {
      if rxQueue == [] {
        return Idle, [];
      }
      if capacity < |rxQueue[0]| {
        return BufferTooSmall, [];
      }
      packet := rxQueue[0];
      rxQueue := rxQueue[1..];
      delivered := delivered + 1;
      return Ok, packet;
    }

    // -------------------------------------------------------------- transmit

    /** The calls of a release in which all goes well. */
    function ReleaseCalls(): seq<Call> {
      [Ptt(false, true)] + if rxGuard > 0 then [Sleep(rxGuard, true)] else []
    }

    /** The calls of a whole transmission in which all goes well, from key-up to guard time. */
    function KeyedCalls(packet: seq<Byte>): seq<Call>
      reads this`lead, this`tail
      requires Sendable(packet, payloadClass)
    {
      [Ptt(true, true), Sleep(lead, true)] + SendCalls(packet, payloadClass, FragmentCount(|packet|, payloadClass))
      + [WaitAudio(true), Sleep(tail, true)] + ReleaseCalls()
    }

    /**
     Call by call: key-up, the lead time, then each fragment prepared and sent in order,
     then the wait for the audio, the tail time, key-down, and the guard time if any.
     */
    lemma KeyedCallsAt(packet: seq<Byte>)
      requires Sendable(packet, payloadClass)
      ensures var calls := KeyedCalls(packet); var n := FragmentCount(|packet|, payloadClass);
        && |calls| == 2 * n + (if rxGuard > 0 then 6 else 5)
        && calls[0] == Ptt(true, true) && calls[1] == Sleep(lead, true)
        && (forall k | 0 <= k < n :: calls[2 + 2 * k] == Audio(true) && calls[3 + 2 * k] == Send(Fragment(packet, payloadClass, k), true))
        && calls[2 * n + 2] == WaitAudio(true) && calls[2 * n + 3] == Sleep(tail, true) && calls[2 * n + 4] == Ptt(false, true)
        && (rxGuard > 0 ==> calls[2 * n + 5] == Sleep(rxGuard, true))
    {
      hide FragmentCount, Fragment;
      SendCallsAt(packet, payloadClass, FragmentCount(|packet|, payloadClass));
    }

    /** Keys down, waits for the guard time, and goes back to reception. */
    method ReleasePtt() returns (ok: bool)
      requires KeyState(trace) == On
      modifies this`trace, this`state
      ensures KeyState(trace) == Off && state == RxIdle && SentFrames(trace) == SentFrames(old(trace)) && old(trace) <= trace
      ensures ok ==> trace == old(trace) + ReleaseCalls()
      ensures !ok ==> trace != old(trace) + ReleaseCalls()
    {
      hide KeyState, SentFrames;
      var released := SetPtt(false);
      state := RxGuard;
      if rxGuard > 0 {
        var slept := SleepMs(rxGuard);
        if !slept {
          state := RxIdle;
          assert trace[|old(trace)| + 1] == Sleep(rxGuard, false);
          return false;
        }
      }
      state := RxIdle;
      assert trace[|old(trace)|] == Ptt(false, released);
      return released;
    }

    /** Sends the fragments one after another until one fails; sent counts those that got through. */
    method SendFragments(packet: seq<Byte>, ready: bool) returns (ok: bool, sent: nat)
      requires Sendable(packet, payloadClass) && KeyState(trace) == On
      modifies this`trace, this`stats
      ensures sent <= FragmentCount(|packet|, payloadClass) && (ok <==> ready && sent == FragmentCount(|packet|, payloadClass))
      ensures KeyState(trace) == On && SentFrames(trace) == SentFrames(old(trace)) + Fragments(packet, payloadClass, sent)
      ensures old(trace) <= trace && stats == old(stats).(txFrames := old(stats).txFrames + sent)
      ensures ok ==> trace == old(trace) + SendCalls(packet, payloadClass, sent)
    {
      hide FragmentCount, Fragment, KeyState, SentFrames;
      ok, sent := ready, 0;
      var count := FragmentCount(|packet|, payloadClass);
      while ok && sent < count
        invariant sent <= count && (!ok ==> !ready || sent < count) && (ok ==> ready)
        invariant KeyState(trace) == On && SentFrames(trace) == SentFrames(old(trace)) + Fragments(packet, payloadClass, sent)
        invariant old(trace) <= trace && stats == old(stats).(txFrames := old(stats).txFrames + sent)
        invariant ok ==> trace == old(trace) + SendCalls(packet, payloadClass, sent)
        decreases count - sent, ok
      {
        ok := SendFragment(packet, sent);
        if ok {
          sent := sent + 1;
          stats := stats.(txFrames := stats.txFrames + 1);
        }
      }
    }

    method SendFragment(packet: seq<Byte>, index: nat) returns (ok: bool)
      requires Sendable(packet, payloadClass) && index < FragmentCount(|packet|, payloadClass) && KeyState(trace) == On
      modifies this`trace
      ensures KeyState(trace) == On && old(trace) <= trace
      ensures SentFrames(trace) == SentFrames(old(trace)) + if ok then [Fragment(packet, payloadClass, index)] else []
      ensures ok ==> trace == old(trace) + [Audio(true), Send(Fragment(packet, payloadClass, index), true)]
    {
      hide FragmentCount, Fragment, Sendable, KeyState, SentFrames;
      var frame := new Byte[128];
      FragmentFits(packet, payloadClass, index);
      var status, length := FragmentBuild(packet, payloadClass, index, frame, 128);
      assert status == FragmentOk;
      ok := PrepareAudio();
      if ok {
        ok := SendAudio(frame[..length]);
      }
    }

    /** The keyed part of `rtnc_runtime_transmit_next`. */
    method Keyed(packet: seq<Byte>) returns (ok: bool, sent: nat)
      requires Sendable(packet, payloadClass) && KeyState(trace) == On
      modifies this`trace, this`stats, this`state
      ensures sent <= FragmentCount(|packet|, payloadClass) && (ok ==> sent == FragmentCount(|packet|, payloadClass))
      ensures KeyState(trace) == Off && SentFrames(trace) == SentFrames(old(trace)) + Fragments(packet, payloadClass, sent)
      ensures old(trace) <= trace && state == RxIdle && stats == old(stats).(txFrames := old(stats).txFrames + sent)
      ensures ok ==> trace == old(trace) + [Sleep(lead, true)] + SendCalls(packet, payloadClass, sent) + [WaitAudio(true), Sleep(tail, true)] + ReleaseCalls()
    {
      hide FragmentCount, Fragment, Sendable, Fragments, KeyState, SentFrames, SendCalls, ReleaseCalls;
      var ready := SleepMs(lead);
      state := TxActive;
      ok, sent := SendFragments(packet, ready);
      state := TxTail;
      if ok {
        ok := Drain();
      }
      if ok {
        ok := SleepMs(tail);
      }
      var released := ReleasePtt();
      if !released {
        ok := false;
      }
    }

    /** Channel access: carrier sense with a time limit, then p-persistence. */
    method TakeTurn() returns (turn: Turn, now: nat, busy: bool)
      requires Valid() && txQueue != []
      modifies this`trace, this`state, this`busyStarted, this`nextSlot, this`random, this`busyTimes
      ensures KeyState(trace) == Off && SentFrames(trace) == SentFrames(old(trace))
      ensures Listened(old(trace), trace, now, busy, senses)
      ensures busy ==> (turn == GiveUp <==> BusyFor(old(busyTimes) + [now], busyTimeout)) && turn != Go
      ensures busy && turn == Wait ==> state == TxWaitBusy && busyTimes == old(busyTimes) + [now] && busyStarted == Since(busyTimes)
      ensures busy ==> senses && BusyTail(trace, old(busyTimes) + [now])
      ensures busy && turn == GiveUp ==> state == RxIdle
      ensures turn != Wait || !busy ==> busyTimes == [] && busyStarted == 0
      ensures !busy ==> state == old(state) && turn != GiveUp
      ensures !busy ==> (turn == Wait <==>
        now < old(nextSlot) || (persistence < 255 && Draw(NextRandom(old(random))) > persistence))
      ensures var draws := !busy && now >= old(nextSlot) && persistence < 255;
        && random == (if draws then NextRandom(old(random)) else old(random))
        && nextSlot == if busy || now < old(nextSlot) then old(nextSlot) else if turn == Wait then now + slotTime else 0
    {
      hide KeyState, SentFrames, NextRandom, Draw, Legal, BusyTail;
      now := Now();
      busy := ChannelBusy();
      if busy {
        LongerTail(old(trace), busyTimes, now);
        state := TxWaitBusy;
        if busyStarted == 0 {
          busyStarted := if now != 0 then now else 1;
        }
        busyTimes := busyTimes + [now];
        if now < busyStarted || now - busyStarted < busyTimeout {
          return Wait, now, true;
        }
        busyStarted, busyTimes, state := 0, [], RxIdle;
        return GiveUp, now, true;
      }
      busyStarted, busyTimes := 0, [];
      if now < nextSlot {
        return Wait, now, false;
      }
      if persistence < 255 {
        random := NextRandom(random);
        if Draw(random) > persistence {
          nextSlot := now + slotTime;
          return Wait, now, false;
        }
      }
      nextSlot := 0;
      return Go, now, false;
    }

    /** `rtnc_runtime_transmit_next`. */
    method TransmitNext() returns (status: Status)
      requires Valid()
      modifies this`trace, this`state, this`busyStarted, this`nextSlot, this`random, this`busyTimes, this`txQueue, this`stats
      ensures Valid() && old(trace) <= trace
      ensures status == Idle <==> old(txQueue) == []
      ensures status == Idle ==> trace == old(trace) && txQueue == [] && stats == old(stats) && state == old(state)
      ensures status != Idle ==>
        && Sendable(old(txQueue)[0], payloadClass)
        && Handled(status, old(txQueue)[0], payloadClass, SentFrames(old(trace)), SentFrames(trace), old(stats), stats)
        && txQueue == if status == Busy then old(txQueue) else old(txQueue)[1..]
      ensures status != Idle ==> state == if status == Busy then (if busyTimes != [] then TxWaitBusy else old(state)) else RxIdle
      ensures status == TxTimeout ==> TimedOutAfter(old(trace), trace, old(busyTimes))
      ensures status == Ok ==> FollowsListening(old(trace), KeyedCalls(old(txQueue)[0]), trace)
    {
      hide KeyState, SentFrames, FragmentCount, Handled, FollowsListening, KeyedCalls, TimedOutAfter, BusyTail;
      if txQueue == [] {
        NoTail(trace);
        busyStarted, busyTimes := 0, [];
        return Idle;
      }
      LegalHead(txQueue, assembler.config.mtu);
      PacketSendable(txQueue[0], payloadClass, assembler.config.mtu);
      hide Sendable, Legal;
      status := ServeHead(txQueue[0]);
    }

    /** The calls end with an unbroken series of busy observations, those before this call among them, that has lasted the limit. */
    predicate TimedOutAfter(before: seq<Call>, after: seq<Call>, times: seq<nat>) {
      && |after| == |before| + 2 && after[|before|].NowIs? && BusyTail(after, times + [after[|before|].t])
      && BusyFor(times + [after[|before|].t], busyTimeout)
    }

    /** The oldest packet waits, is given up, or is sent. */
    method ServeHead(packet: seq<Byte>) returns (status: Status)
      requires Valid() && txQueue != [] && packet == txQueue[0] && Sendable(packet, payloadClass) && Legal(txQueue[1..], assembler.config.mtu)
      modifies this`trace, this`state, this`busyStarted, this`nextSlot, this`random, this`busyTimes, this`txQueue, this`stats
      ensures Valid() && old(trace) <= trace && status != Idle
      ensures Handled(status, packet, payloadClass, SentFrames(old(trace)), SentFrames(trace), old(stats), stats)
      ensures txQueue == if status == Busy then old(txQueue) else old(txQueue)[1..]
      ensures state == if status == Busy then (if busyTimes != [] then TxWaitBusy else old(state)) else RxIdle
      ensures status == TxTimeout ==> TimedOutAfter(old(trace), trace, old(busyTimes))
      ensures status == Ok ==> FollowsListening(old(trace), KeyedCalls(packet), trace)
    {
      hide KeyState, SentFrames, FragmentCount, Fragments, NextRandom, Draw, AllSent, FirstSent, BusyFor, FollowsListening, KeyedCalls, Legal, Sendable, BusyTail;
      var turn, now, busy := TakeTurn();
      ListenedParts(old(trace), trace, now, busy, senses);
      ListenedClock(old(trace), trace, now, busy, senses);
      hide Listened;
      NoTail(trace);
      if turn == Wait {
        return Busy;
      }
      if turn == GiveUp {
        txQueue := txQueue[1..];
        stats := stats.(txBusyTimeouts := stats.txBusyTimeouts + 1, txFailures := stats.txFailures + 1);
        return TxTimeout;
      }
      ghost var listened := trace;
      status := SendHead(packet);
      if status == Ok {
        AfterListening(old(trace), listened, now, busy, senses, KeyedCalls(packet), trace);
      }
    }

    /** The oldest packet is sent, with success or not, and leaves the queue. */
    method SendHead(packet: seq<Byte>) returns (status: Status)
      requires Valid() && txQueue != [] && packet == txQueue[0] && Sendable(packet, payloadClass) && Legal(txQueue[1..], assembler.config.mtu)
      requires busyTimes == []
      modifies this`trace, this`state, this`txQueue, this`stats
      ensures Valid() && old(trace) <= trace && (status == Ok || status == TxFailed) && state == RxIdle && txQueue == old(txQueue)[1..]
      ensures Handled(status, packet, payloadClass, SentFrames(old(trace)), SentFrames(trace), old(stats), stats)
      ensures status == Ok ==> trace == old(trace) + KeyedCalls(packet)
    {
      hide KeyState, SentFrames, Handled, KeyedCalls, Legal, Sendable, BusyTail;
      status := KeyAndSend(packet);
      NoTail(trace);
      txQueue := txQueue[1..];
    }

    /** Keys up, sends, keys down, and counts the result. */
    method KeyAndSend(packet: seq<Byte>) returns (status: Status)
      requires Sendable(packet, payloadClass) && KeyState(trace) == Off
      modifies this`trace, this`state, this`stats
      ensures KeyState(trace) == Off && state == RxIdle && old(trace) <= trace && (status == Ok || status == TxFailed)
      ensures stats.txPackets + stats.txFailures == old(stats.txPackets + stats.txFailures) + 1
      ensures stats.rxPackets == old(stats.rxPackets)
      ensures Handled(status, packet, payloadClass, SentFrames(old(trace)), SentFrames(trace), old(stats), stats)
      ensures status == Ok ==> trace == old(trace) + KeyedCalls(packet)
    {
      hide KeyState, SentFrames, FragmentCount, Fragments, Sendable, SendCalls, ReleaseCalls;
      state := TxKeying;
      var up := SetPtt(true);
      if !up {
        state := RxIdle;
        stats := stats.(txFailures := stats.txFailures + 1);
        NoFragments(packet, payloadClass);
        assert FirstSent(0, packet, payloadClass, SentFrames(old(trace)), SentFrames(trace), old(stats), stats);
        return TxFailed;
      }
      var ok, sent := Keyed(packet);
      if !ok {
        stats := stats.(txFailures := stats.txFailures + 1);
        assert FirstSent(sent, packet, payloadClass, SentFrames(old(trace)), SentFrames(trace), old(stats), stats);
        return TxFailed;
      }
      stats := stats.(txPackets := stats.txPackets + 1, txBytes := stats.txBytes + |packet|);
      return Ok;
    }
  }

  lemma NoFragments(packet: seq<Byte>, payloadClass: nat)
    requires Sendable(packet, payloadClass)
    ensures Fragments(packet, payloadClass, 0) == []
  {}

  /** A packet the queue accepts can always be cut into fragments. */
  lemma PacketSendable(packet: seq<Byte>, payloadClass: nat, mtu: nat)
    requires ValidClass(payloadClass) && 0 < |packet| <= mtu <= MAX_COUNT * Room(payloadClass)
    ensures Sendable(packet, payloadClass)
  {
    CountBounded(|packet|, payloadClass, mtu);
  }

  lemma FragmentFits(packet: seq<Byte>, payloadClass: nat, i: nat)
    requires Sendable(packet, payloadClass) && i < FragmentCount(|packet|, payloadClass)
    ensures |Fragment(packet, payloadClass, i)| <= 128
  {
    PieceInside(|packet|, payloadClass, i);
  }
}
