/**
 Reassembly of src/framing/fragmentation.c. `Pushed` says what one call does to the
 assembly in progress; the class `Reassembler` does it on the caller's buffer.
 */
module Reassembly {
  import opened Limits
  import opened Bits
  import opened Fragmentation

  const CLOCK: nat := 0x1_0000_0000_0000_0000

  datatype Config = Config(mtu: nat, payloadClass: nat, timeout: nat)

  /** What `rtnc_reassembly_init` accepts. */
  predicate ValidConfig(c: Config) {
    && c.timeout != 0 && LINK_MIN_MTU <= c.mtu <= LINK_MAX_MTU
    && ValidClass(c.payloadClass) && c.mtu <= MAX_COUNT * Room(c.payloadClass)
  }

  /** The packet under construction; when inactive the other fields are what was left behind. */
  datatype Assembly = Assembly(active: bool, data: seq<Byte>, remaining: nat, started: nat)

  const CLEARED: Assembly := Assembly(false, [], 0, 0)

  datatype Outcome =
    | Complete(packet: seq<Byte>)
    | Incomplete
    | InvalidFrame
    | InvalidSequence
    | Oversize
    | TimedOut

  /** One received radio payload and the clock when it is pushed. */
  datatype Arrival = Arrival(frame: seq<Byte>, now: nat)

  predicate WellFormed(c: Config, frame: seq<Byte>) {
    1 < |frame| <= c.payloadClass
  }

  /** `now - started` in unsigned 64-bit arithmetic. */
  function Elapsed(started: nat, now: nat): nat {
    (now - started) % CLOCK
  }

  /** The clock may wrap in between: what has elapsed is what has passed. */
  lemma ElapsedIsTime(start: nat, passed: nat)
    requires passed < 0x1_0000_0000_0000_0000
    ensures Elapsed(start % 0x1_0000_0000_0000_0000, (start + passed) % 0x1_0000_0000_0000_0000) == passed
  {
    var r, d := start % CLOCK, (start + passed) % CLOCK;
    assert d == if r + passed < CLOCK then r + passed else r + passed - CLOCK;
  }

  predicate Late(c: Config, a: Assembly, now: nat) {
    a.active && Elapsed(a.started, now) > c.timeout
  }

  function Append(c: Config, a: Assembly, data: seq<Byte>): (Assembly, Outcome) {
    if |a.data| + |data| > c.mtu then (CLEARED, Oversize)
    else
      var grown := a.data + data;
      if a.remaining == 0 then (a.(data := grown, active := false), Complete(grown)) else (a.(data := grown), Incomplete)
  }

  /** One call of `rtnc_reassembly_push`. */
  function Pushed(c: Config, a: Assembly, e: Arrival): (Assembly, Outcome) {
    if !WellFormed(c, e.frame) then (a, InvalidFrame)
    else
      var header, data := e.frame[0], e.frame[1..];
      if !Continues(header) then Append(c, Assembly(true, [], Remaining(header), e.now), data)
      else if Late(c, a, e.now) then (CLEARED, TimedOut)
      else if !a.active || a.remaining == 0 || Remaining(header) + 1 != a.remaining then (CLEARED, InvalidSequence)
      else Append(c, a.(remaining := Remaining(header)), data)
  }

  // ---------------------------------------------------------------- in place

  class Reassembler {
    const packet: array<Byte>
    const config: Config
    var length: nat
    var remaining: nat
    var started: nat
    var active: bool

    ghost predicate Valid()
      reads this
    {
      ValidConfig(config) && packet.Length >= config.mtu && length <= config.mtu
    }

    ghost function State(): Assembly
      reads this, packet
      requires Valid()
    {
      Assembly(active, packet[..length], remaining, started)
    }

    constructor (buffer: array<Byte>, c: Config)
      requires ValidConfig(c) && buffer.Length >= c.mtu
      ensures Valid() && config == c && packet == buffer && State() == CLEARED
    {
      packet, config := buffer, c;
      length, remaining, started, active := 0, 0, 0, false;
    }

    method Reset()
      requires Valid()
      modifies this
      ensures Valid() && State() == CLEARED
    {
      length, remaining, started, active := 0, 0, 0, false;
    }

    method AppendData(data: seq<Byte>) returns (outcome: Outcome)
      requires Valid()
      modifies this, packet
      ensures Valid() && (State(), outcome) == Append(config, old(State()), data)
    {
      if length + |data| > config.mtu {
        Reset();
        return Oversize;
      }
      ghost var before := packet[..length];
      CopyInto(data, packet, length);
      length := length + |data|;
      assert packet[..length] == before + data;
      if remaining == 0 {
        active := false;
        return Complete(packet[..length]);
      }
      return Incomplete;
    }

    method Push(frame: seq<Byte>, now: nat) returns (outcome: Outcome)
      requires Valid()
      modifies this, packet
      ensures Valid() && (State(), outcome) == Pushed(config, old(State()), Arrival(frame, now))
    {
      hide Remaining, Continues;
      if |frame| <= 1 || |frame| > config.payloadClass {
        return InvalidFrame;
      }
      var continuation := Continues(frame[0]);
      var left := Remaining(frame[0]);
      if active && (now - started) % CLOCK > config.timeout {
        Reset();
        if continuation {
          return TimedOut;
        }
      }
      if !continuation {
        Reset();
        active := true;
        remaining := left;
        started := now;
      } else {
        if !active || remaining == 0 || left + 1 != remaining {
          Reset();
          return InvalidSequence;
        }
        remaining := left;
      }
      outcome := AppendData(frame[1..]);
    }
  }
}
