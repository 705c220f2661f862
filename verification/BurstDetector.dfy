/**
 The burst detector of src/platform/burst_detector.c: a ring of recent samples, two
 power estimates, and a capture that is opened by a trigger and closed by length or
 by quiet. `stream` is every sample accepted so far.
 */
module BurstDetector {
  import opened Numbers
  import opened Arithmetic

  const MAX_PRETRIGGER: nat := 12000
  const MAX_CANDIDATE: nat := 90000

  datatype Config = Config(
    warmup: nat, pretrigger: nat, release: nat, cooldown: nat,
    noiseAttack: real, noiseRelease: real, signalAlpha: real,
    triggerRatio: real, releaseRatio: real, impulseLimit: real,
    maximumActive: nat, capture: nat, energyTrigger: bool, requiresEnergy: bool)

  predicate ValidConfig(c: Config) {
    && c.warmup != 0 && 0 < c.pretrigger <= MAX_PRETRIGGER && c.release != 0
    && 0.0 < c.noiseAttack <= 1.0 && 0.0 < c.noiseRelease <= 1.0 && 0.0 < c.signalAlpha <= 1.0
    && 1.0 < c.releaseRatio < c.triggerRatio
    && (c.energyTrigger ==> c.impulseLimit > c.triggerRatio)
    && 0 < c.maximumActive <= MAX_CANDIDATE && c.capture <= c.maximumActive
  }

  // ---------------------------------------------------------------- power estimates

  datatype Power = Power(noise: real, signal: real)

  function Limited(c: Config, noise: real, power: real): real {
    if noise > 0.0 && power > Product(noise, c.impulseLimit) then Product(noise, c.impulseLimit) else power
  }

  /** The noise estimate follows the channel only while nothing is captured and no cooldown runs. */
  function NextNoise(c: Config, signal: real, noise: real, power: real): real {
    if !c.requiresEnergy || signal <= Product(noise, c.releaseRatio) then
      var limited := Limited(c, noise, power);
      noise + (if limited > noise then c.noiseAttack else c.noiseRelease) * (limited - noise)
    else noise
  }

  function NextPower(c: Config, p: Power, first: bool, idle: bool, power: real): Power {
    if first then Power(power, power)
    else
      var signal := p.signal + c.signalAlpha * (power - p.signal);
      Power(if idle then NextNoise(c, signal, p.noise, power) else p.noise, signal)
  }

  predicate Opens(c: Config, p: Power, trigger: bool) {
    || (trigger && (!c.requiresEnergy || p.signal > Product(p.noise, c.releaseRatio)))
    || (c.energyTrigger && p.signal > Product(p.noise, c.triggerRatio))
  }

  /** The length of the current run of quiet samples. */
  function NextQuiet(c: Config, p: Power, quiet: nat): nat {
    if p.signal < Product(p.noise, c.releaseRatio) then quiet + 1 else 0
  }

  /** A capture ends by length, or by quiet when no length is set. */
  predicate Ends(c: Config, count: nat, quiet: nat) {
    (c.capture > 0 && count >= c.capture) || (c.capture == 0 && quiet >= c.release) || count >= c.maximumActive
  }

  /** What decides about captures: estimates, the open capture's length and quiet run, the cooldown. */
  datatype Gate = Gate(seen: nat, power: Power, open: bool, length: nat, quiet: nat, cooldown: nat)

  const FRESH: Gate := Gate(0, Power(0.0, 0.0), false, 0, 0, 0)

  /** One sample with its channel power; true when it ends a capture. */
  function Heard(c: Config, g: Gate, channelPower: real, trigger: bool): (Gate, bool) {
    var power := NextPower(c, g.power, g.seen == 0, !g.open && g.cooldown == 0, channelPower);
    var fires := !g.open && g.cooldown == 0 && g.seen + 1 >= c.warmup && Opens(c, power, trigger);
    var waiting := if !g.open && g.cooldown > 0 then g.cooldown - 1 else g.cooldown;
    if g.open || fires then
      var length := (if fires then Min(g.seen, c.pretrigger) else g.length) + 1;
      var quiet := NextQuiet(c, power, if fires then 0 else g.quiet);
      if Ends(c, length, quiet) then (Gate(g.seen + 1, power, false, 0, 0, c.cooldown), true)
      else (Gate(g.seen + 1, power, true, length, quiet, waiting), false)
    else (Gate(g.seen + 1, power, false, 0, 0, waiting), false)
  }

  // ---------------------------------------------------------------- ring

  /** The last n samples. */
  function Last(stream: seq<real>, n: nat): seq<real>
    requires n <= |stream|
  {
    stream[|stream| - n..]
  }

  /** Sample i of the stream, if among the last n, sits in the ring at i modulo its size. */
  predicate Recent(ring: seq<real>, size: nat, stream: seq<real>, n: nat)
    requires 0 < size <= |ring| && n <= |stream|
  {
    forall i | |stream| - n <= i < |stream| :: ring[i % size] == stream[i]
  }

  /** The ring holds the most recent samples, as many as there are or fit. */
  predicate RingOk(ring: seq<real>, size: nat, write: nat, count: nat, stream: seq<real>) {
    && 0 < size <= |ring| && write == |stream| % size && count == Min(|stream|, size)
    && Recent(ring, size, stream, count)
  }

  /** The first n entries of the buffer are the last n samples. */
  predicate Suffix(buffer: seq<real>, n: nat, stream: seq<real>) {
    n <= |stream| && n <= |buffer| && buffer[..n] == Last(stream, n)
  }

  /** The ring after one more sample. */
  lemma RecentNext(ring: seq<real>, size: nat, stream: seq<real>, n: nat, sample: real)
    requires 0 < size <= |ring| && n <= |stream| && n == Min(|stream|, size) && Recent(ring, size, stream, n)
    ensures Recent(ring[|stream| % size := sample], size, stream + [sample], Min(|stream| + 1, size))
  {
    var next, longer := ring[|stream| % size := sample], stream + [sample];
    forall i | |longer| - Min(|longer|, size) <= i < |longer| ensures next[i % size] == longer[i] {
      if i < |stream| && i % size == |stream| % size {
        SameResidue(i, |stream|, size);
      }
    }
  }

  /** The index arithmetic of the copy loop finds sample `at` of the stream. */
  lemma RingIndex(length: nat, size: nat, n: nat, k: nat)
    requires size > 0 && n == Min(length, size) && k < n
    ensures length % size + size - n + k >= 0
    ensures (length % size + size - n + k) % size == (length - n + k) % size
  {
    if n == size {
      AddMod(length, k, size);
      WholeTurn(length - n + k, size);
    } else {
      Small(length, size);
      WholeTurn(length - n + k, size);
    }
  }

  /** A capture that goes on is shorter than every limit. */
  lemma BeforeEnd(c: Config, count: nat, quiet: nat)
    requires ValidConfig(c)
    ensures !Ends(c, count, quiet) ==> count < c.maximumActive && (c.capture > 0 ==> count < c.capture)
    ensures Ends(c, count, quiet) && c.capture > 0 ==> count >= c.capture
  {}

  lemma WholeWindow(buffer: seq<real>, n: nat, stream: seq<real>)
    requires Suffix(buffer, n, stream)
    ensures n <= |buffer| && n <= |stream| && buffer[..n] == Last(stream, n)
  {}

  lemma FullRing(ring: seq<real>, size: nat, write: nat, count: nat, stream: seq<real>)
    requires RingOk(ring, size, write, count, stream)
    ensures count == Min(|stream|, size) <= size
  {}

  lemma HistoryFits(ring: seq<real>, size: nat, write: nat, count: nat, stream: seq<real>)
    requires RingOk(ring, size, write, count, stream)
    ensures count <= |stream| && count <= size && |Last(stream, count)| == count
  {}

  /** Ring index of the k-th of the last `count` samples. */
  function Source(write: nat, size: nat, count: nat, k: nat): nat
    requires 0 < size && count <= size
  {
    (write + size - count + k) % size
  }

  lemma HistoryCopied(buffer: seq<real>, n: nat, stream: seq<real>)
    requires n <= |buffer| && n <= |stream| && forall k | 0 <= k < n :: k < |Last(stream, n)| && buffer[k] == Last(stream, n)[k]
    ensures Suffix(buffer, n, stream)
  {}

  /** The copy loop reads the history, oldest sample first. */
  lemma HistorySample(ring: seq<real>, size: nat, write: nat, count: nat, stream: seq<real>, k: nat)
    requires RingOk(ring, size, write, count, stream) && k < count
    ensures count <= size && Source(write, size, count, k) < |ring|
    ensures count <= |stream| && ring[Source(write, size, count, k)] == Last(stream, count)[k]
  {
    RingIndex(|stream|, size, count, k);
    hide Min;
  }

  class Detector {
    const config: Config
    const pretrigger: array<real>
    const candidate: array<real>
    var pretriggerCount: nat
    var pretriggerWrite: nat
    var candidateCount: nat
    var quietSamples: nat
    var cooldownSamples: nat
    var samplesSeen: nat
    var detectedBursts: nat
    var power: Power
    var active: bool

    ghost var stream: seq<real>
    ghost var emitted: nat
    /** Samples since the last capture closed, and whether there was one. */
    ghost var sinceClose: nat
    ghost var closed: bool

    ghost predicate Valid()
      reads this, pretrigger, candidate
    {
      Sound() && (active ==> !Ends(config, candidateCount, quietSamples))
    }

    /** As `Valid`, while a capture may have just reached its end. */
    ghost predicate Sound()
      reads this, pretrigger, candidate
    {
      && ValidConfig(config) && pretrigger.Length == MAX_PRETRIGGER && candidate.Length == MAX_CANDIDATE
      && pretrigger != candidate
      && samplesSeen == |stream| && RingOk(pretrigger[..], config.pretrigger, pretriggerWrite, pretriggerCount, stream)
      && (active ==> candidateCount > 0 && Suffix(candidate[..], candidateCount, stream))
      && (active ==> cooldownSamples == 0)
      && (!active && closed ==> sinceClose + cooldownSamples >= config.cooldown)
      && detectedBursts == emitted + if active then 1 else 0
    }

    ghost function GateOf(): Gate
      reads this
    {
      Gate(samplesSeen, power, active, if active then candidateCount else 0, if active then quietSamples else 0, cooldownSamples)
    }

    constructor (c: Config)
      requires ValidConfig(c)
      ensures Valid() && config == c && stream == [] && emitted == 0 && !active && !closed && GateOf() == FRESH
    {
      config := c;
      pretrigger, candidate := new real[MAX_PRETRIGGER](i => 0.0), new real[MAX_CANDIDATE](i => 0.0);
      pretriggerCount, pretriggerWrite, candidateCount, quietSamples, cooldownSamples := 0, 0, 0, 0, 0;
      samplesSeen, detectedBursts, power, active := 0, 0, Power(0.0, 0.0), false;
      stream, emitted, sinceClose, closed := [], 0, 0, false;
    }

    /** Starts a candidate with the history in the ring, oldest sample first. */
    method CopyHistory()
      requires ValidConfig(config) && pretrigger.Length == MAX_PRETRIGGER && candidate.Length == MAX_CANDIDATE && pretrigger != candidate
      requires RingOk(pretrigger[..], config.pretrigger, pretriggerWrite, pretriggerCount, stream)
      modifies candidate, this`candidateCount
      ensures candidateCount == pretriggerCount && Suffix(candidate[..], candidateCount, stream)
    {
      candidateCount := 0;
      HistoryFits(pretrigger[..], config.pretrigger, pretriggerWrite, pretriggerCount, stream);
      ghost var history := Last(stream, pretriggerCount);
      hide RingOk, Last, Suffix, Min, Recent, Source;
      for index := 0 to pretriggerCount
        invariant candidateCount == index
        invariant forall k | 0 <= k < index :: candidate[k] == history[k]
      {
        CopySample(index);
      }
      HistoryCopied(candidate[..], candidateCount, stream);
    }

    method CopySample(index: nat)
      requires ValidConfig(config) && pretrigger.Length == MAX_PRETRIGGER && candidate.Length == MAX_CANDIDATE && pretrigger != candidate
      requires RingOk(pretrigger[..], config.pretrigger, pretriggerWrite, pretriggerCount, stream)
      requires index == candidateCount < pretriggerCount
      modifies candidate, this`candidateCount
      ensures candidateCount == index + 1 && pretriggerCount <= |stream| && index < |Last(stream, pretriggerCount)|
      ensures candidate[index] == Last(stream, pretriggerCount)[index]
      ensures forall k | 0 <= k < candidate.Length && k != index :: candidate[k] == old(candidate[k])
    {
      HistorySample(pretrigger[..], config.pretrigger, pretriggerWrite, pretriggerCount, stream, index);
      HistoryFits(pretrigger[..], config.pretrigger, pretriggerWrite, pretriggerCount, stream);
      hide RingOk, Last, Min, Recent, Source;
      candidate[candidateCount] := pretrigger[..][Source(pretriggerWrite, config.pretrigger, pretriggerCount, index)];
      candidateCount := candidateCount + 1;
    }

    method Remember(sample: real)
      requires ValidConfig(config) && pretrigger.Length == MAX_PRETRIGGER
      requires RingOk(pretrigger[..], config.pretrigger, pretriggerWrite, pretriggerCount, stream)
      modifies pretrigger, this`pretriggerWrite, this`pretriggerCount
      ensures RingOk(pretrigger[..], config.pretrigger, pretriggerWrite, pretriggerCount, stream + [sample])
    {
      RecentNext(pretrigger[..], config.pretrigger, stream, pretriggerCount, sample);
      SuccMod(|stream|, config.pretrigger);
      pretrigger[pretriggerWrite] := sample;
      assert pretrigger[..] == old(pretrigger[..])[|stream| % config.pretrigger := sample];
      pretriggerWrite := (pretriggerWrite + 1) % config.pretrigger;
      if pretriggerCount < config.pretrigger {
        pretriggerCount := pretriggerCount + 1;
      }
    }

    /** Adds a sample to the open capture and says whether that ends it. */
    method Capture(sample: real) returns (finished: bool)
      requires ValidConfig(config) && candidate.Length == MAX_CANDIDATE && candidateCount < MAX_CANDIDATE
      requires Suffix(candidate[..], candidateCount, stream)
      modifies candidate, this`candidateCount, this`quietSamples
      ensures candidateCount == old(candidateCount) + 1 && Suffix(candidate[..], candidateCount, stream + [sample])
      ensures quietSamples == NextQuiet(config, power, old(quietSamples))
      ensures finished == Ends(config, candidateCount, quietSamples)
    {
      if candidateCount < MAX_CANDIDATE {
        candidate[candidateCount] := sample;
        candidateCount := candidateCount + 1;
      }
      assert Last(stream + [sample], candidateCount) == Last(stream, candidateCount - 1) + [sample];
      if power.signal < power.noise * config.releaseRatio {
        quietSamples := quietSamples + 1;
      } else {
        quietSamples := 0;
      }
      finished := (config.capture > 0 && candidateCount >= config.capture)
        || (config.capture == 0 && quietSamples >= config.release)
        || candidateCount >= config.maximumActive;
    }

    method UpdatePower(channelPower: real, first: bool)
      modifies this`power
      ensures power == NextPower(config, old(power), first, !active && cooldownSamples == 0, channelPower)
    {
      if first {
        power := Power(channelPower, channelPower);
        return;
      }
      var signal := power.signal + config.signalAlpha * (channelPower - power.signal);
      var noise := power.noise;
      if !active && cooldownSamples == 0 && (!config.requiresEnergy || signal <= noise * config.releaseRatio) {
        var limited := channelPower;
        var alpha := config.noiseRelease;
        if noise > 0.0 && limited > noise * config.impulseLimit {
          limited := noise * config.impulseLimit;
        }
        if limited > noise {
          alpha := config.noiseAttack;
        }
        noise := noise + alpha * (limited - noise);
      }
      power := Power(noise, signal);
    }

    /** Counts the cooldown down, or opens a capture with the history when a trigger says so. */
    method TryOpen(trigger: bool)
      requires ValidConfig(config) && pretrigger.Length == MAX_PRETRIGGER && candidate.Length == MAX_CANDIDATE && pretrigger != candidate
      requires RingOk(pretrigger[..], config.pretrigger, pretriggerWrite, pretriggerCount, stream)
      modifies candidate, this`candidateCount, this`quietSamples, this`cooldownSamples, this`active, this`detectedBursts
      ensures var fires := !old(active) && old(cooldownSamples) == 0 && samplesSeen >= config.warmup && Opens(config, power, trigger);
        && active == (old(active) || fires) && detectedBursts == old(detectedBursts) + (if fires then 1 else 0)
        && (if fires then candidateCount == pretriggerCount && Suffix(candidate[..], candidateCount, stream) && quietSamples == 0
            else candidateCount == old(candidateCount) && candidate[..] == old(candidate[..]) && quietSamples == old(quietSamples))
      ensures cooldownSamples == if !old(active) && old(cooldownSamples) > 0 then old(cooldownSamples) - 1 else old(cooldownSamples)
    {
      hide Opens, RingOk, Suffix;
      if !active && cooldownSamples > 0 {
        cooldownSamples := cooldownSamples - 1;
      } else if !active && samplesSeen >= config.warmup && Opens(config, power, trigger) {
        CopyHistory();
        active, quietSamples, detectedBursts := true, 0, detectedBursts + 1;
      }
    }

    /** `rtnc_burst_detector_process_triggered`. */
    method ProcessTriggered(channelPower: real, sample: real, trigger: bool) returns (finished: bool, window: seq<real>)
      requires Valid()
      modifies this, pretrigger, candidate
      ensures Valid()
      ensures channelPower < 0.0 ==>
        !finished && stream == old(stream) && emitted == old(emitted) && detectedBursts == old(detectedBursts) && power == old(power)
      ensures channelPower >= 0.0 ==>
        var fires := !old(active) && old(cooldownSamples) == 0 && |stream| >= config.warmup && Opens(config, power, trigger);
        && stream == old(stream) + [sample]
        && power == NextPower(config, old(power), old(stream) == [], !old(active) && old(cooldownSamples) == 0, channelPower)
        && detectedBursts == old(detectedBursts) + (if fires then 1 else 0) && emitted == old(emitted) + (if finished then 1 else 0)
        && (finished || active <==> old(active) || fires)
        && (fires && old(closed) ==> old(sinceClose) >= config.cooldown)
        && (!old(active) && !finished ==> sinceClose == old(sinceClose) + 1 && closed == old(closed))
      ensures channelPower < 0.0 ==> GateOf() == old(GateOf())
      ensures channelPower >= 0.0 ==> (GateOf(), finished) == Heard(config, old(GateOf()), channelPower, trigger)
      ensures finished ==>
        && 0 < |window| <= |stream| && window == Last(stream, |window|) && !active && closed && sinceClose == 0
        && (config.capture > config.pretrigger ==> |window| == config.capture)
        && |window| == (if old(active) then old(candidateCount) else Min(|old(stream)|, config.pretrigger)) + 1
        && Ends(config, |window|, NextQuiet(config, power, if old(active) then old(quietSamples) else 0))
    {
      finished, window := false, [];
      if channelPower < 0.0 {
        return;
      }
      BeforeEnd(config, candidateCount, quietSamples);
      hide NextPower, Opens, RingOk, Suffix, Min, Ends, NextQuiet, Heard;
      finished := Absorb(channelPower, sample, trigger);
      if finished {
        BeforeEnd(config, candidateCount, quietSamples);
        window := Close();
      }
    }

    /** Power estimates, then cooldown or opening. */
    method Listen(channelPower: real, trigger: bool)
      requires Valid()
      modifies this, candidate
      ensures samplesSeen == |stream| + 1 && stream == old(stream) && emitted == old(emitted) && closed == old(closed) && sinceClose == old(sinceClose)
      ensures RingOk(pretrigger[..], config.pretrigger, pretriggerWrite, pretriggerCount, stream)
      ensures var fires := !old(active) && old(cooldownSamples) == 0 && |stream| + 1 >= config.warmup && Opens(config, power, trigger);
        && active == (old(active) || fires)
        && power == NextPower(config, old(power), stream == [], !old(active) && old(cooldownSamples) == 0, channelPower)
        && detectedBursts == old(detectedBursts) + (if fires then 1 else 0)
        && (active ==> candidateCount == (if fires then Min(|stream|, config.pretrigger) else old(candidateCount)))
        && (active ==> quietSamples == if fires then 0 else old(quietSamples))
      ensures active ==> Suffix(candidate[..], candidateCount, stream) && candidateCount < MAX_CANDIDATE && cooldownSamples == 0
      ensures cooldownSamples == if !old(active) && old(cooldownSamples) > 0 then old(cooldownSamples) - 1 else old(cooldownSamples)
    {
      BeforeEnd(config, candidateCount, quietSamples);
      FullRing(pretrigger[..], config.pretrigger, pretriggerWrite, pretriggerCount, stream);
      hide NextPower, Opens, RingOk, Suffix, Min, Ends, NextQuiet;
      samplesSeen := samplesSeen + 1;
      UpdatePower(channelPower, samplesSeen == 1);
      TryOpen(trigger);
    }

    /** Takes in one sample: estimates, cooldown or opening, capture, history. */
    method Absorb(channelPower: real, sample: real, trigger: bool) returns (finished: bool)
      requires Valid()
      modifies this, pretrigger, candidate
      ensures Sound() && (active ==> finished == Ends(config, candidateCount, quietSamples)) && (finished ==> active)
      ensures var fires := !old(active) && old(cooldownSamples) == 0 && |stream| >= config.warmup && Opens(config, power, trigger);
        && stream == old(stream) + [sample] && active == (old(active) || fires)
        && power == NextPower(config, old(power), old(stream) == [], !old(active) && old(cooldownSamples) == 0, channelPower)
        && detectedBursts == old(detectedBursts) + (if fires then 1 else 0)
        && (active ==> candidateCount == (if fires then Min(|old(stream)|, config.pretrigger) else old(candidateCount)) + 1)
        && (active ==> quietSamples == NextQuiet(config, power, if fires then 0 else old(quietSamples)))
      ensures emitted == old(emitted) && closed == old(closed) && sinceClose == old(sinceClose) + 1
      ensures var (next, ends) := Heard(config, old(GateOf()), channelPower, trigger);
        && finished == ends && (if ends then next == Gate(samplesSeen, power, false, 0, 0, config.cooldown) else next == GateOf())
      ensures cooldownSamples == if !old(active) && old(cooldownSamples) > 0 then old(cooldownSamples) - 1 else old(cooldownSamples)
    {
      hide NextPower, Opens, RingOk, Suffix, Min, Ends, NextQuiet;
      Listen(channelPower, trigger);
      finished := false;
      if active {
        finished := Capture(sample);
      }
      Remember(sample);
      stream, sinceClose := stream + [sample], sinceClose + 1;
    }

    /** Hands out the capture and starts the cooldown. */
    method Close() returns (window: seq<real>)
      requires Sound() && active
      modifies this
      ensures Valid() && !active && closed && sinceClose == 0 && emitted == old(emitted) + 1
      ensures stream == old(stream) && power == old(power) && detectedBursts == old(detectedBursts) && samplesSeen == old(samplesSeen)
      ensures |window| == old(candidateCount) <= |stream| && window == Last(stream, |window|)
      ensures cooldownSamples == config.cooldown
    {
      WholeWindow(candidate[..], candidateCount, stream);
      hide RingOk, Suffix;
      window := candidate[..candidateCount];
      active, candidateCount, quietSamples, cooldownSamples := false, 0, 0, config.cooldown;
      emitted, sinceClose, closed := emitted + 1, 0, true;
    }
  }
}
