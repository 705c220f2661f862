/**
 What the burst detector hears, as laws over the channel powers of a run: a steady
 channel opens nothing, a burst that lasts opens a capture in time, and a capture
 without a set length ends with the first quiet stretch.
 */
module BurstRuns {
  import opened Numbers
  import opened BurstDetector

  /** One sample: its channel power and the external trigger. */
  datatype Tick = Tick(power: real, trigger: bool)

  function After(c: Config, g: Gate, run: seq<Tick>, n: nat): Gate
    requires n <= |run|
  {
    if n == 0 then g else Heard(c, After(c, g, run, n - 1), run[n - 1].power, run[n - 1].trigger).0
  }

  predicate ClosesAt(c: Config, g: Gate, run: seq<Tick>, n: nat)
    requires n < |run|
  {
    Heard(c, After(c, g, run, n), run[n].power, run[n].trigger).1
  }

  /** Tick n opens a capture, which may also close at once. */
  predicate OpensAt(c: Config, g: Gate, run: seq<Tick>, n: nat)
    requires n < |run|
  {
    !After(c, g, run, n).open && (After(c, g, run, n + 1).open || ClosesAt(c, g, run, n))
  }

  predicate PowersIn(run: seq<Tick>, lo: real, hi: real) {
    forall i | 0 <= i < |run| :: lo <= run[i].power <= hi
  }

  // ---------------------------------------------------------------- exponential averages

  function Pow(x: real, n: nat): real {
    if n == 0 then 1.0 else Product(x, Pow(x, n - 1))
  }

  lemma Scale(k: real, x: real, y: real)
    requires k >= 0.0 && x <= y
    ensures Product(k, x) <= Product(k, y) && Product(x, k) <= Product(y, k)
  {}

  lemma Plain(x: real)
    ensures Product(x, 0.0) == 0.0 == Product(0.0, x) && Product(x, 1.0) == x == Product(1.0, x)
  {}

  lemma {:induction false} PowBounds(x: real, n: nat)
    requires 0.0 <= x <= 1.0
    ensures 0.0 <= Pow(x, n) <= 1.0
  {
    hide Product;
    if n > 0 {
      PowBounds(x, n - 1);
      Scale(x, 0.0, Pow(x, n - 1));
      Scale(x, Pow(x, n - 1), 1.0);
      Plain(x);
    }
  }

  /** The average moves from x towards y by the share a. */
  function Moved(x: real, y: real, a: real): real {
    x + a * (y - x)
  }

  lemma MovedIs(x: real, y: real, a: real)
    ensures Moved(x, y, a) == Product(1.0 - a, x) + Product(a, y)
    ensures Moved(x, x, a) == x
  {}

  lemma MovedUp(x: real, y: real, a: real, u: real, v: real)
    requires 0.0 <= a <= 1.0 && x <= u && y <= v
    ensures Moved(x, y, a) <= Moved(u, v, a)
  {
    hide Moved, Product;
    MovedIs(x, y, a);
    MovedIs(u, v, a);
    Scale(1.0 - a, x, u);
    Scale(a, y, v);
  }

  lemma MovedBetween(x: real, y: real, a: real, lo: real, hi: real)
    requires 0.0 <= a <= 1.0 && lo <= x <= hi && lo <= y <= hi
    ensures lo <= Moved(x, y, a) <= hi
  {
    hide Moved;
    MovedUp(lo, lo, a, x, y);
    MovedUp(x, y, a, hi, hi);
    MovedIs(lo, lo, a);
    MovedIs(hi, hi, a);
  }

  /** Where an average that starts at x stands after n moves towards y. */
  function Drawn(x: real, y: real, a: real, n: nat): real {
    y - Product(y - x, Pow(1.0 - a, n))
  }

  lemma DrawnNext(x: real, y: real, a: real, n: nat)
    ensures Drawn(x, y, a, n + 1) == Moved(Drawn(x, y, a, n), y, a)
  {
    MovesOff(y, y - x, Pow(1.0 - a, n), a);
    hide Moved, Product;
  }

  lemma MovesOff(y: real, d: real, p: real, a: real)
    ensures y - Product(d, Product(1.0 - a, p)) == Moved(y - Product(d, p), y, a)
  {
    assert d * ((1.0 - a) * p) == d * p - a * (d * p);
  }

  lemma DrawnFirst(x: real, y: real, a: real)
    ensures Drawn(x, y, a, 0) == x
  {}

  lemma DrawnRises(x: real, y: real, a: real, n: nat)
    requires 0.0 <= a <= 1.0 && x <= y
    ensures Drawn(x, y, a, n) <= Drawn(x, y, a, n + 1) <= y
  {
    hide Product, Moved;
    PowBounds(1.0 - a, n);
    Scale(y - x, 0.0, Pow(1.0 - a, n));
    Plain(y - x);
    DrawnNext(x, y, a, n);
    var d := Drawn(x, y, a, n);
    MovedBetween(d, y, a, d, y);
  }

  // ---------------------------------------------------------------- estimates

  /** The noise estimate of an idle detector stays, or moves towards the limited power. */
  lemma NoiseMoves(c: Config, signal: real, noise: real, power: real)
    ensures var limited := Limited(c, noise, power);
      var next := NextNoise(c, signal, noise, power);
      next == noise || next == Moved(noise, limited, if limited > noise then c.noiseAttack else c.noiseRelease)
  {}

  lemma LimitedIs(c: Config, noise: real, power: real)
    ensures Limited(c, noise, power) <= power
    ensures c.impulseLimit >= 1.0 && 0.0 <= noise ==> (Limited(c, noise, power) == power || noise <= Limited(c, noise, power))
  {
    if c.impulseLimit >= 1.0 && 0.0 <= noise {
      Scale(noise, 1.0, c.impulseLimit);
      Plain(noise);
    }
  }

  lemma NoiseLifts(c: Config, signal: real, noise: real, power: real)
    requires ValidConfig(c) && c.impulseLimit >= 1.0 && noise > 0.0
    ensures NextNoise(c, signal, noise, power) <= Moved(noise, Product(noise, c.impulseLimit), c.noiseAttack)
    ensures noise <= Moved(noise, Product(noise, c.impulseLimit), c.noiseAttack)
  {
    NoiseMoves(c, signal, noise, power);
    Scale(noise, 1.0, c.impulseLimit);
    Plain(noise);
    var limited, most := Limited(c, noise, power), Product(noise, c.impulseLimit);
    assert limited <= most && noise <= most;
    hide NextNoise, Limited, Moved, Product;
    MovedIs(noise, noise, c.noiseAttack);
    MovedIs(noise, noise, c.noiseRelease);
    MovedUp(noise, noise, c.noiseAttack, noise, most);
    if limited > noise {
      MovedUp(noise, limited, c.noiseAttack, noise, most);
    } else {
      MovedUp(noise, limited, c.noiseRelease, noise, noise);
    }
  }

  lemma HeardPower(c: Config, g: Gate, tick: Tick)
    ensures Heard(c, g, tick.power, tick.trigger).0.power
         == NextPower(c, g.power, g.seen == 0, !g.open && g.cooldown == 0, tick.power)
  {
    hide NextPower, Opens, Ends, NextQuiet;
  }

  /** One impulse, however strong, lifts the noise estimate by no more than the limited share. */
  lemma ImpulsesAreLimited(c: Config, g: Gate, tick: Tick)
    requires ValidConfig(c) && c.impulseLimit >= 1.0 && g.seen > 0 && g.power.noise > 0.0
    ensures Heard(c, g, tick.power, tick.trigger).0.power.noise <= Moved(g.power.noise, Product(g.power.noise, c.impulseLimit), c.noiseAttack)
  {
    HeardPower(c, g, tick);
    NextPowerIs(c, g.power, !g.open && g.cooldown == 0, tick.power);
    hide Heard, NextPower, NextNoise, Moved, Product;
    NoiseLifts(c, Moved(g.power.signal, tick.power, c.signalAlpha), g.power.noise, tick.power);
  }

  // ---------------------------------------------------------------- a steady channel opens nothing

  /** An idle gate whose estimates lie within the powers heard. */
  predicate Calm(g: Gate, lo: real, hi: real) {
    !g.open && g.length == 0 && g.quiet == 0 && (g.seen > 0 ==> lo <= g.power.noise <= hi && lo <= g.power.signal <= hi)
  }

  lemma NextPowerIs(c: Config, p: Power, idle: bool, power: real)
    ensures var signal := Moved(p.signal, power, c.signalAlpha);
      NextPower(c, p, false, idle, power) == Power(if idle then NextNoise(c, signal, p.noise, power) else p.noise, signal)
  {
    hide NextNoise;
  }

  lemma CalmPower(c: Config, p: Power, idle: bool, power: real, lo: real, hi: real)
    requires ValidConfig(c) && c.impulseLimit >= 1.0 && 0.0 <= lo <= power <= hi && lo <= p.noise <= hi && lo <= p.signal <= hi
    ensures var q := NextPower(c, p, false, idle, power); lo <= q.noise <= hi && lo <= q.signal <= hi
  {
    hide NextNoise, Moved, Limited;
    NextPowerIs(c, p, idle, power);
    MovedBetween(p.signal, power, c.signalAlpha, lo, hi);
    NoiseMoves(c, Moved(p.signal, power, c.signalAlpha), p.noise, power);
    LimitedIs(c, p.noise, power);
    var limited := Limited(c, p.noise, power);
    MovedBetween(p.noise, limited, if limited > p.noise then c.noiseAttack else c.noiseRelease, lo, hi);
    hide NextPower;
  }

  lemma CalmStep(c: Config, g: Gate, power: real, trigger: bool, lo: real, hi: real)
    requires ValidConfig(c) && c.impulseLimit >= 1.0 && 0.0 <= lo <= power <= hi && Calm(g, lo, hi)
    requires hi <= c.releaseRatio * lo && (trigger ==> c.requiresEnergy)
    ensures Calm(Heard(c, g, power, trigger).0, lo, hi) && !Heard(c, g, power, trigger).1
  {
    if g.seen > 0 {
      CalmPower(c, g.power, g.cooldown == 0, power, lo, hi);
    }
    var q := NextPower(c, g.power, g.seen == 0, g.cooldown == 0, power);
    assert lo <= q.noise <= hi && lo <= q.signal <= hi;
    hide NextPower, Opens, Ends, NextQuiet;
    NoOpening(c, q, trigger, lo, hi);
  }

  lemma NoOpening(c: Config, q: Power, trigger: bool, lo: real, hi: real)
    requires ValidConfig(c) && 0.0 <= lo <= q.noise && q.signal <= hi <= c.releaseRatio * lo && (trigger ==> c.requiresEnergy)
    ensures !Opens(c, q, trigger)
  {
    Scale(c.releaseRatio, lo, q.noise);
    Scale(q.noise, c.releaseRatio, c.triggerRatio);
  }

  /**
   While every channel power lies within the release ratio of every other, nothing opens,
   whatever the external trigger does, as long as it needs energy.
   */
  lemma {:induction false} SteadyStaysShut(c: Config, run: seq<Tick>, lo: real, hi: real, n: nat)
    requires ValidConfig(c) && c.impulseLimit >= 1.0 && n <= |run| && 0.0 <= lo && PowersIn(run, lo, hi) && hi <= c.releaseRatio * lo
    requires forall i | 0 <= i < |run| && run[i].trigger :: c.requiresEnergy
    ensures !After(c, FRESH, run, n).open && forall i | 0 <= i < n :: !OpensAt(c, FRESH, run, i)
    ensures Calm(After(c, FRESH, run, n), lo, hi)
  {
    hide Heard;
    if n > 0 {
      SteadyStaysShut(c, run, lo, hi, n - 1);
      CalmStep(c, After(c, FRESH, run, n - 1), run[n - 1].power, run[n - 1].trigger, lo, hi);
    }
  }

  /** n samples of power one, each with a trigger. */
  function Level(n: nat): (run: seq<Tick>)
    ensures |run| == n && PowersIn(run, 1.0, 1.0) && forall i | 0 <= i < n :: run[i] == Tick(1.0, true)
  {
    seq(n, i => Tick(1.0, true))
  }

  /** The share of itself that the noise estimate loses at each sample of power one. */
  function Rate(c: Config): real {
    Product(c.noiseRelease, 1.0 - c.impulseLimit)
  }

  /** What it loses at least while it is still too high to open. */
  function Loss(c: Config): real
    requires c.releaseRatio > 0.0
  {
    Rate(c) / c.releaseRatio
  }

  lemma Positive(x: real, y: real)
    requires x > 0.0 && y > 0.0
    ensures Product(x, y) > 0.0
  {}

  lemma Quotient(x: real, y: real)
    requires x > 0.0 && y > 0.0
    ensures x / y > 0.0 && Product(x / y, y) == x
  {
    assert (x / y) * y == x;
    if x / y <= 0.0 {
      Scale(y, x / y, 0.0);
      Plain(y);
      assert false;
    }
  }

  lemma LossIsPositive(c: Config)
    requires ValidConfig(c) && c.impulseLimit < 1.0
    ensures Loss(c) > 0.0 && Product(Loss(c), c.releaseRatio) == Rate(c)
  {
    Positive(c.noiseRelease, 1.0 - c.impulseLimit);
    Quotient(Rate(c), c.releaseRatio);
    hide Product;
  }

  /** Low enough that a signal of one opens. */
  predicate Low(c: Config, noise: real) {
    1.0 > Product(noise, c.releaseRatio)
  }

  lemma HighIsPositive(c: Config, noise: real)
    requires c.releaseRatio > 0.0 && !Low(c, noise)
    ensures noise > 0.0
  {
    if noise <= 0.0 {
      Scale(c.releaseRatio, noise, 0.0);
      Plain(c.releaseRatio);
      assert false;
    }
  }

  lemma BelowOne(noise: real, limit: real)
    requires 0.0 < noise <= 1.0 && limit < 1.0
    ensures Product(noise, limit) < 1.0 && Product(noise, limit) < noise
  {}

  lemma HighNoise(c: Config, noise: real)
    requires ValidConfig(c) && c.impulseLimit < 1.0 && noise <= 1.0 && !Low(c, noise)
    ensures NextNoise(c, 1.0, noise, 1.0) == noise + c.noiseRelease * (Product(noise, c.impulseLimit) - noise)
  {
    HighIsPositive(c, noise);
    BelowOne(noise, c.impulseLimit);
    LimitedNoise(c, noise, Product(noise, c.releaseRatio), Product(noise, c.impulseLimit));
  }

  lemma LimitedNoise(c: Config, noise: real, threshold: real, ceiling: real)
    requires threshold == Product(noise, c.releaseRatio) && ceiling == Product(noise, c.impulseLimit)
    requires 1.0 <= threshold && ceiling < 1.0 && ceiling < noise && noise > 0.0
    ensures NextNoise(c, 1.0, noise, 1.0) == noise + c.noiseRelease * (ceiling - noise)
  {}

  lemma LossIs(release: real, limit: real, noise: real)
    ensures noise + release * (noise * limit - noise) == noise - Product(Product(release, 1.0 - limit), noise)
  {
    assert release * (noise * limit - noise) == -((release * (1.0 - limit)) * noise);
  }

  lemma RateLosesLoss(d: real, ratio: real, noise: real)
    requires d > 0.0 && noise * ratio >= 1.0
    ensures Product(Product(d, ratio), noise) >= d
  {
    Scale(d, 1.0, noise * ratio);
    Plain(d);
    assert (d * ratio) * noise == d * (noise * ratio);
  }

  lemma LosesNoise(c: Config, noise: real)
    requires ValidConfig(c) && c.impulseLimit < 1.0 && noise <= 1.0 && !Low(c, noise)
    ensures NextNoise(c, 1.0, noise, 1.0) <= noise - Loss(c)
  {
    HighNoise(c, noise);
    LossIs(c.noiseRelease, c.impulseLimit, noise);
    LossIsPositive(c);
    RateLosesLoss(Loss(c), c.releaseRatio, noise);
    hide NextNoise, Loss, Product;
  }

  /** On the level channel: still shut, with the signal at one and the noise low already or sinking. */
  predicate Sinking(c: Config, g: Gate, n: nat)
    requires c.releaseRatio > 0.0
  {
    && !g.open && g.cooldown == 0 && g.seen == n && n > 0 && g.power.signal == 1.0 && g.power.noise <= 1.0
    && (Low(c, g.power.noise) || g.power.noise <= 1.0 - Product(Loss(c), n as real - 1.0))
  }

  lemma SinkingPower(c: Config, p: Power)
    requires ValidConfig(c) && c.requiresEnergy && c.impulseLimit < 1.0 && p.signal == 1.0 && p.noise <= 1.0
    ensures var q := NextPower(c, p, false, true, 1.0);
      q.signal == 1.0 && q.noise <= 1.0 && if Low(c, p.noise) then q.noise == p.noise else q.noise <= p.noise - Loss(c)
  {
    LossIsPositive(c);
    MovedIs(1.0, 1.0, c.signalAlpha);
    NextPowerIs(c, p, true, 1.0);
    hide NextPower, Moved, Loss;
    if Low(c, p.noise) {
      LowStays(c, p.noise);
    } else {
      LosesNoise(c, p.noise);
    }
    hide NextNoise, Low;
  }

  lemma LowStays(c: Config, noise: real)
    requires c.requiresEnergy && Low(c, noise)
    ensures NextNoise(c, 1.0, noise, 1.0) == noise
  {}

  lemma OneMoreLoss(d: real, n: nat)
    ensures Product(d, (n + 1) as real - 1.0) == Product(d, n as real - 1.0) + d
  {}

  lemma SinkingStep(c: Config, g: Gate, n: nat)
    requires ValidConfig(c) && c.requiresEnergy && c.impulseLimit < 1.0 && Sinking(c, g, n)
    ensures var (h, closes) := Heard(c, g, 1.0, true); h.open || closes || Sinking(c, h, n + 1)
  {
    hide NextPower, Opens, Ends, NextQuiet, Loss, Product, Low;
    SinkingPower(c, g.power);
    OneMoreLoss(Loss(c), n);
    LossIsPositive(c);
  }

  lemma SinkingStart(c: Config)
    requires ValidConfig(c)
    ensures var (h, closes) := Heard(c, FRESH, 1.0, true); h.open || closes || Sinking(c, h, 1)
  {
    Plain(Loss(c));
    hide Opens, Ends, NextQuiet, Loss, Product;
  }

  lemma {:induction false} LevelSinks(c: Config, run: seq<Tick>, n: nat)
    requires ValidConfig(c) && c.requiresEnergy && c.impulseLimit < 1.0 && run == Level(|run|) && 0 < n <= |run|
    ensures (exists k | 0 <= k < n :: OpensAt(c, FRESH, run, k)) || Sinking(c, After(c, FRESH, run, n), n)
  {
    hide Heard, Sinking;
    assert run[n - 1] == Tick(1.0, true);
    if n == 1 {
      assert After(c, FRESH, run, 0) == FRESH;
      SinkingStart(c);
      assert OpensAt(c, FRESH, run, 0) || Sinking(c, After(c, FRESH, run, 1), 1);
    } else {
      LevelSinks(c, run, n - 1);
      if Sinking(c, After(c, FRESH, run, n - 1), n - 1) {
        SinkingStep(c, After(c, FRESH, run, n - 1), n - 1);
        assert !After(c, FRESH, run, n - 1).open by {
          SinkingIsShut(c, After(c, FRESH, run, n - 1), n - 1);
        }
        assert OpensAt(c, FRESH, run, n - 1) || Sinking(c, After(c, FRESH, run, n), n);
      }
    }
  }

  lemma SinkingIsShut(c: Config, g: Gate, n: nat)
    requires c.releaseRatio > 0.0 && Sinking(c, g, n)
    ensures !g.open
  {}

  /** Low enough and warm, the next trigger opens. */
  lemma SunkOpens(c: Config, g: Gate, n: nat)
    requires ValidConfig(c) && c.requiresEnergy && c.impulseLimit < 1.0 && Sinking(c, g, n) && n >= c.warmup
    requires Product(Loss(c), n as real - 1.0) >= 1.0
    ensures var (h, closes) := Heard(c, g, 1.0, true); h.open || closes
  {
    hide NextPower, Opens, Ends, NextQuiet, Loss, Product, Low;
    SinkingPower(c, g.power);
    if !Low(c, g.power.noise) {
      HighIsPositive(c, g.power.noise);
      assert false;
    }
    LowOpens(c, NextPower(c, g.power, false, true, 1.0));
    OpensNow(c, g, Tick(1.0, true));
  }

  lemma LowOpens(c: Config, q: Power)
    requires q.signal == 1.0 && Low(c, q.noise)
    ensures Opens(c, q, true)
  {}

  lemma EnoughSamples(c: Config) returns (n: nat)
    requires ValidConfig(c) && c.impulseLimit < 1.0
    ensures n >= c.warmup && n > 0 && Product(Loss(c), n as real - 1.0) >= 1.0
  {
    LossIsPositive(c);
    var d := Loss(c);
    hide Loss;
    var m := (1.0 / d).Floor + 2;
    Quotient(1.0, d);
    assert m as real - 1.0 >= 1.0 / d;
    n := if m > c.warmup then m else c.warmup;
    Scale(d, 1.0 / d, n as real - 1.0);
  }

  /** With an impulse limit below one a channel of constant power opens a capture after all. */
  lemma WeakLimitOpens(c: Config) returns (run: seq<Tick>, k: nat)
    requires ValidConfig(c) && c.requiresEnergy && c.impulseLimit < 1.0
    ensures PowersIn(run, 1.0, 1.0) && k < |run| && OpensAt(c, FRESH, run, k)
  {
    hide Heard, Sinking, Loss, Product;
    var n := EnoughSamples(c);
    run := Level(n + 1);
    LevelSinks(c, run, n);
    if j :| 0 <= j < n && OpensAt(c, FRESH, run, j) {
      k := j;
    } else {
      SunkOpens(c, After(c, FRESH, run, n), n);
      SinkingIsShut(c, After(c, FRESH, run, n), n);
      k := n;
      assert run[n] == Tick(1.0, true);
    }
  }

  /** No run of powers within the release ratio of each other opens a capture. */
  ghost predicate SteadyProof(c: Config) {
    forall run: seq<Tick>, lo: real, hi: real, k: nat |
      k < |run| && 0.0 <= lo && PowersIn(run, lo, hi) && hi <= c.releaseRatio * lo :: !OpensAt(c, FRESH, run, k)
  }

  /** A detector whose external trigger needs energy is proof against steady channels if and only if its impulse limit is at least one. */
  lemma SteadyExactly(c: Config)
    requires ValidConfig(c) && c.requiresEnergy
    ensures SteadyProof(c) <==> c.impulseLimit >= 1.0
  {
    hide OpensAt;
    if c.impulseLimit >= 1.0 {
      forall run: seq<Tick>, lo: real, hi: real, k: nat |
        k < |run| && 0.0 <= lo && PowersIn(run, lo, hi) && hi <= c.releaseRatio * lo ensures !OpensAt(c, FRESH, run, k)
      {
        SteadyStaysShut(c, run, lo, hi, |run|);
      }
    } else {
      var run, k := WeakLimitOpens(c);
      assert 1.0 <= c.releaseRatio * 1.0;
    }
  }

  // ---------------------------------------------------------------- a lasting burst opens in time

  /** An idle detector whose estimates are on their way from (noise, signal): the noise no further up, the signal no further down. */
  predicate Rising(c: Config, g: Gate, noise: real, signal: real, lo: real, hi: real, n: nat) {
    && !g.open && g.cooldown == 0 && g.seen > 0
    && g.power.noise <= Drawn(noise, hi, c.noiseAttack, n) && g.power.signal >= Drawn(signal, lo, c.signalAlpha, n)
  }

  lemma RisingNoise(c: Config, signal: real, noise: real, power: real, start: real, hi: real, n: nat)
    requires ValidConfig(c) && start <= hi && noise <= Drawn(start, hi, c.noiseAttack, n) && power <= hi
    ensures NextNoise(c, signal, noise, power) <= Drawn(start, hi, c.noiseAttack, n + 1)
  {
    NoiseMoves(c, signal, noise, power);
    LimitedBelow(c, noise, power);
    var limited := Limited(c, noise, power);
    hide NextNoise, Limited, Moved, Drawn;
    DrawnRises(start, hi, c.noiseAttack, n);
    DrawnNext(start, hi, c.noiseAttack, n);
    if limited > noise {
      MovedUp(noise, limited, c.noiseAttack, Drawn(start, hi, c.noiseAttack, n), hi);
    } else {
      MovedUp(noise, limited, c.noiseRelease, noise, noise);
      MovedIs(noise, noise, c.noiseRelease);
    }
  }

  lemma LimitedBelow(c: Config, noise: real, power: real)
    ensures Limited(c, noise, power) <= power
  {}

  lemma RisingPower(c: Config, g: Gate, tick: Tick, noise: real, signal: real, lo: real, hi: real, n: nat)
    requires ValidConfig(c) && Rising(c, g, noise, signal, lo, hi, n) && noise <= hi && lo <= tick.power <= hi
    ensures var q := NextPower(c, g.power, false, true, tick.power);
      q.noise <= Drawn(noise, hi, c.noiseAttack, n + 1) && q.signal >= Drawn(signal, lo, c.signalAlpha, n + 1)
  {
    hide NextNoise, Moved, Drawn;
    NextPowerIs(c, g.power, true, tick.power);
    RisingNoise(c, Moved(g.power.signal, tick.power, c.signalAlpha), g.power.noise, tick.power, noise, hi, n);
    DrawnNext(signal, lo, c.signalAlpha, n);
    MovedUp(Drawn(signal, lo, c.signalAlpha, n), lo, c.signalAlpha, g.power.signal, tick.power);
    hide NextPower;
  }

  /** Either the sample opens a capture or the detector goes on rising. */
  lemma RisingStep(c: Config, g: Gate, tick: Tick, noise: real, signal: real, lo: real, hi: real, n: nat)
    requires ValidConfig(c) && Rising(c, g, noise, signal, lo, hi, n) && noise <= hi && lo <= tick.power <= hi
    ensures var (h, closes) := Heard(c, g, tick.power, tick.trigger); h.open || closes || Rising(c, h, noise, signal, lo, hi, n + 1)
  {
    RisingPower(c, g, tick, noise, signal, lo, hi, n);
    hide NextPower, Opens, Ends, NextQuiet, Drawn;
  }

  lemma {:induction false} RisesOn(c: Config, g: Gate, run: seq<Tick>, lo: real, hi: real, n: nat)
    requires ValidConfig(c) && n <= |run| && PowersIn(run, lo, hi) && g.power.noise <= hi && !g.open && g.cooldown == 0 && g.seen > 0
    ensures (exists k | 0 <= k < n :: OpensAt(c, g, run, k)) || Rising(c, After(c, g, run, n), g.power.noise, g.power.signal, lo, hi, n)
    ensures After(c, g, run, n).seen == g.seen + n
  {
    hide Heard, Rising;
    if n == 0 {
      RisingFirst(c, g, lo, hi);
    } else {
      RisesOn(c, g, run, lo, hi, n - 1);
      SeenGrows(c, After(c, g, run, n - 1), run[n - 1]);
      if Rising(c, After(c, g, run, n - 1), g.power.noise, g.power.signal, lo, hi, n - 1) {
        RisingStep(c, After(c, g, run, n - 1), run[n - 1], g.power.noise, g.power.signal, lo, hi, n - 1);
        RisingIsShut(c, After(c, g, run, n - 1), g.power.noise, g.power.signal, lo, hi, n - 1);
        assert OpensAt(c, g, run, n - 1) || Rising(c, After(c, g, run, n), g.power.noise, g.power.signal, lo, hi, n);
      }
    }
  }

  lemma RisingFirst(c: Config, g: Gate, lo: real, hi: real)
    requires !g.open && g.cooldown == 0 && g.seen > 0
    ensures Rising(c, g, g.power.noise, g.power.signal, lo, hi, 0)
  {
    DrawnFirst(g.power.noise, hi, c.noiseAttack);
    DrawnFirst(g.power.signal, lo, c.signalAlpha);
  }

  lemma RisingIsShut(c: Config, g: Gate, noise: real, signal: real, lo: real, hi: real, n: nat)
    requires Rising(c, g, noise, signal, lo, hi, n)
    ensures !g.open
  {}

  lemma SeenGrows(c: Config, g: Gate, tick: Tick)
    ensures Heard(c, g, tick.power, tick.trigger).0.seen == g.seen + 1
  {
    hide NextPower, Opens, Ends, NextQuiet;
  }

  /** The channel has changed enough after n samples: the least the signal average can be exceeds the ratio of the most the noise can be. */
  predicate Stands(c: Config, noise: real, signal: real, lo: real, hi: real, n: nat, ratio: real) {
    lo - Product(lo - signal, Pow(1.0 - c.signalAlpha, n)) > ratio * (hi - Product(hi - noise, Pow(1.0 - c.noiseAttack, n)))
  }

  lemma StandsOpens(c: Config, g: Gate, tick: Tick, noise: real, signal: real, lo: real, hi: real, n: nat, ratio: real)
    requires ValidConfig(c) && Rising(c, g, noise, signal, lo, hi, n) && noise <= hi && lo <= tick.power <= hi
    requires g.seen + 1 >= c.warmup && ratio > 0.0 && Stands(c, noise, signal, lo, hi, n + 1, ratio)
    requires (tick.trigger && ratio == c.releaseRatio) || (c.energyTrigger && ratio == c.triggerRatio)
    ensures var (h, closes) := Heard(c, g, tick.power, tick.trigger); h.open || closes
  {
    RisingPower(c, g, tick, noise, signal, lo, hi, n);
    RisingIsIdle(c, g, noise, signal, lo, hi, n);
    var q := NextPower(c, g.power, false, true, tick.power);
    StandsIs(c, noise, signal, lo, hi, n + 1, ratio);
    hide NextPower, Drawn, Stands, Rising, Heard, Opens;
    RatioPassed(c, q, tick.trigger, Drawn(signal, lo, c.signalAlpha, n + 1), Drawn(noise, hi, c.noiseAttack, n + 1), ratio);
    OpensNow(c, g, tick);
  }

  lemma RisingIsIdle(c: Config, g: Gate, noise: real, signal: real, lo: real, hi: real, n: nat)
    requires Rising(c, g, noise, signal, lo, hi, n)
    ensures !g.open && g.cooldown == 0 && g.seen > 0
  {}

  lemma StandsIs(c: Config, noise: real, signal: real, lo: real, hi: real, n: nat, ratio: real)
    requires Stands(c, noise, signal, lo, hi, n, ratio)
    ensures Drawn(signal, lo, c.signalAlpha, n) > Product(ratio, Drawn(noise, hi, c.noiseAttack, n))
  {
    hide Pow;
  }

  lemma RatioPassed(c: Config, q: Power, trigger: bool, least: real, most: real, ratio: real)
    requires q.noise <= most && q.signal >= least && least > Product(ratio, most) && ratio > 0.0
    requires (trigger && ratio == c.releaseRatio) || (c.energyTrigger && ratio == c.triggerRatio)
    ensures Opens(c, q, trigger)
  {
    Scale(ratio, q.noise, most);
  }

  lemma OpensNow(c: Config, g: Gate, tick: Tick)
    requires !g.open && g.cooldown == 0 && g.seen > 0 && g.seen + 1 >= c.warmup
    requires Opens(c, NextPower(c, g.power, false, true, tick.power), tick.trigger)
    ensures var (h, closes) := Heard(c, g, tick.power, tick.trigger); h.open || closes
  {
    hide NextPower, Opens, Ends, NextQuiet;
  }

  /**
   An idle detector, warm by then, that hears powers in lo .. hi for n samples opens a
   capture by the n-th at the latest, if the change stands then by the release ratio and
   the external trigger comes with it, or by the trigger ratio and energy triggers.
   */
  lemma BurstOpens(c: Config, g: Gate, run: seq<Tick>, lo: real, hi: real, ratio: real)
    requires ValidConfig(c) && run != [] && PowersIn(run, lo, hi)
    requires !g.open && g.cooldown == 0 && g.seen > 0 && g.seen + |run| >= c.warmup && g.power.noise <= hi
    requires Stands(c, g.power.noise, g.power.signal, lo, hi, |run|, ratio)
    requires (run[|run| - 1].trigger && ratio == c.releaseRatio) || (c.energyTrigger && ratio == c.triggerRatio)
    ensures exists k | 0 <= k < |run| :: OpensAt(c, g, run, k)
  {
    hide Heard, Rising, Stands;
    var n := |run| - 1;
    RisesOn(c, g, run, lo, hi, n);
    if !exists k | 0 <= k < n :: OpensAt(c, g, run, k) {
      StandsOpens(c, After(c, g, run, n), run[n], g.power.noise, g.power.signal, lo, hi, n, ratio);
      RisingIsShut(c, After(c, g, run, n), g.power.noise, g.power.signal, lo, hi, n);
      assert OpensAt(c, g, run, n);
    }
  }

  /** Before a trigger nothing opens, unless energy triggers. */
  lemma {:induction false} NoTriggerNoOpening(c: Config, g: Gate, run: seq<Tick>, n: nat)
    requires n <= |run| && !g.open && !c.energyTrigger && forall i | 0 <= i < n :: !run[i].trigger
    ensures !After(c, g, run, n).open && forall k | 0 <= k < n :: !OpensAt(c, g, run, k)
  {
    hide NextPower, NextQuiet, Ends;
    if n > 0 {
      NoTriggerNoOpening(c, g, run, n - 1);
    }
  }

  /** With the averages of the default configuration a tenfold rise stands after five samples. */
  lemma TenfoldStandsInFive(c: Config)
    requires c.signalAlpha == 0.02 && c.noiseAttack == 0.0002
    ensures Stands(c, 1.0, 1.0, 10.0, 10.0, 5, 1.8) && !Stands(c, 1.0, 1.0, 10.0, 10.0, 4, 1.8)
  {
    FifthPower(0.98, 0.9604, 0.941192);
    FifthPower(0.9998, 0.99960004, 0.999400119992);
  }

  lemma FifthPower(x: real, square: real, cube: real)
    requires square == x * x && cube == x * square
    ensures Pow(x, 4) == square * square && Pow(x, 5) == square * cube
  {
    assert Pow(x, 0) == 1.0 && Pow(x, 1) == x && Pow(x, 2) == square && Pow(x, 3) == cube;
    assert Pow(x, 4) == x * cube;
    assert x * (x * square) == (x * x) * square;
    assert x * (square * square) == square * (x * square);
  }

  // ---------------------------------------------------------------- a capture ends with the first quiet stretch

  /** The exponential average of the powers since a capture opened, from its value at the opening sample. */
  function Smoothed(alpha: real, start: real, run: seq<Tick>, k: nat): real
    requires k < |run|
  {
    if k == 0 then start else Moved(Smoothed(alpha, start, run, k - 1), run[k].power, alpha)
  }

  /** The last m samples up to k were all quieter than the release ratio times the noise at the opening. */
  ghost predicate QuietFor(c: Config, opening: Power, run: seq<Tick>, k: nat, m: nat)
    requires k < |run|
  {
    m <= k + 1 && forall i | k + 1 - m <= i <= k :: Smoothed(c.signalAlpha, opening.signal, run, i) < Product(opening.noise, c.releaseRatio)
  }

  /** The capture goes on: noise as it was at the opening, signal smoothed, and the quiet run the longest there is. */
  ghost predicate Capturing(c: Config, g: Gate, opening: Power, run: seq<Tick>, k: nat, length: nat)
    requires k < |run|
  {
    && g.open && g.length == length && g.power == Power(opening.noise, Smoothed(c.signalAlpha, opening.signal, run, k))
    && LongestQuiet(c, opening, run, k, g.quiet)
  }

  ghost predicate LongestQuiet(c: Config, opening: Power, run: seq<Tick>, k: nat, quiet: nat)
    requires k < |run|
  {
    forall m: nat :: m <= quiet <==> QuietFor(c, opening, run, k, m)
  }

  lemma QuietNext(c: Config, opening: Power, run: seq<Tick>, k: nat, quiet: nat)
    requires 0 < k < |run| && LongestQuiet(c, opening, run, k - 1, quiet)
    ensures LongestQuiet(c, opening, run, k, NextQuiet(c, Power(opening.noise, Smoothed(c.signalAlpha, opening.signal, run, k)), quiet))
  {
    hide Smoothed, QuietFor;
    NoQuiet(c, opening, run, k);
    var s := Smoothed(c.signalAlpha, opening.signal, run, k);
    var next := NextQuiet(c, Power(opening.noise, s), quiet);
    forall m: nat ensures m <= next <==> QuietFor(c, opening, run, k, m) {
      if m > 0 {
        assert QuietFor(c, opening, run, k, m) <==> s < Product(opening.noise, c.releaseRatio) && QuietFor(c, opening, run, k - 1, m - 1) by {
          QuietSplits(c, opening, run, k, m);
        }
      }
    }
  }

  lemma QuietSplits(c: Config, opening: Power, run: seq<Tick>, k: nat, m: nat)
    requires 0 < k < |run| && m > 0
    ensures QuietFor(c, opening, run, k, m) <==>
      Smoothed(c.signalAlpha, opening.signal, run, k) < Product(opening.noise, c.releaseRatio) && QuietFor(c, opening, run, k - 1, m - 1)
  {
    hide Smoothed;
    if QuietFor(c, opening, run, k, m) {
      assert k + 1 - m <= k <= k;
    }
  }

  lemma NoQuiet(c: Config, opening: Power, run: seq<Tick>, k: nat)
    requires k < |run|
    ensures QuietFor(c, opening, run, k, 0)
  {}

  lemma FirstQuiet(c: Config, opening: Power, run: seq<Tick>)
    requires run != []
    ensures LongestQuiet(c, opening, run, 0, NextQuiet(c, opening, 0))
  {
    forall m: nat ensures m <= NextQuiet(c, opening, 0) <==> QuietFor(c, opening, run, 0, m) {
      if m == 1 {
        assert QuietFor(c, opening, run, 0, 1) <==> Smoothed(c.signalAlpha, opening.signal, run, 0) < Product(opening.noise, c.releaseRatio);
      }
    }
  }

  /** What a sample does to an open capture. */
  lemma CaptureStep(c: Config, g: Gate, tick: Tick)
    requires g.open && g.seen > 0
    ensures var (h, closes) := Heard(c, g, tick.power, tick.trigger);
      var power := Power(g.power.noise, Moved(g.power.signal, tick.power, c.signalAlpha));
      && closes == Ends(c, g.length + 1, NextQuiet(c, power, g.quiet))
      && (!closes ==> h.open && h.seen > 0 && h.length == g.length + 1 && h.power == power && h.quiet == NextQuiet(c, power, g.quiet))
  {
    hide Opens, Ends, NextQuiet, NextNoise;
  }

  lemma OpeningStep(c: Config, g: Gate, tick: Tick)
    requires !g.open
    ensures var (h, closes) := Heard(c, g, tick.power, tick.trigger);
      h.open || closes ==>
        && closes == Ends(c, Min(g.seen, c.pretrigger) + 1, NextQuiet(c, h.power, 0))
        && (!closes ==> h.open && h.seen > 0 && h.length == Min(g.seen, c.pretrigger) + 1 && h.quiet == NextQuiet(c, h.power, 0))
  {
    hide Opens, Ends, NextQuiet, NextPower;
  }

  /** When the window ends, by the number of its samples and its quiet stretches. */
  ghost predicate WindowEnds(c: Config, opening: Power, run: seq<Tick>, k: nat, length: nat)
    requires k < |run|
  {
    || (c.capture > 0 && length >= c.capture)
    || (c.capture == 0 && QuietFor(c, opening, run, k, c.release))
    || length >= c.maximumActive
  }

  lemma EndsIs(c: Config, opening: Power, run: seq<Tick>, k: nat, length: nat, quiet: nat)
    requires k < |run| && LongestQuiet(c, opening, run, k, quiet)
    ensures Ends(c, length, quiet) <==> WindowEnds(c, opening, run, k, length)
  {
    hide QuietFor;
  }

  /**
   A capture opened at the first tick ends at exactly the first tick at which its set
   length is reached or, without one, the last `release` samples were all quiet by the
   smoothed power and the noise estimate at the opening, or the maximum is reached.
   */
  lemma {:induction false} WindowEndsFirst(c: Config, g: Gate, run: seq<Tick>, k: nat)
    requires k < |run| && OpensAt(c, g, run, 0) && forall i | 0 <= i < k :: !ClosesAt(c, g, run, i)
    ensures var opening := After(c, g, run, 1).power; var length := Min(g.seen, c.pretrigger) + k + 1;
      && (ClosesAt(c, g, run, k) <==> WindowEnds(c, opening, run, k, length))
      && (!ClosesAt(c, g, run, k) ==> After(c, g, run, k + 1).seen > 0 && Capturing(c, After(c, g, run, k + 1), opening, run, k, length))
  {
    hide Heard, Ends, NextQuiet, QuietFor, WindowEnds, LongestQuiet, Min;
    var opening := After(c, g, run, 1).power;
    assert After(c, g, run, 0) == g;
    assert After(c, g, run, 1) == Heard(c, g, run[0].power, run[0].trigger).0;
    if k == 0 {
      OpeningStep(c, g, run[0]);
      FirstQuiet(c, opening, run);
      EndsIs(c, opening, run, 0, Min(g.seen, c.pretrigger) + 1, NextQuiet(c, opening, 0));
    } else {
      WindowEndsFirst(c, g, run, k - 1);
      var h := After(c, g, run, k);
      CaptureStep(c, h, run[k]);
      QuietNext(c, opening, run, k, h.quiet);
      var power := Power(opening.noise, Smoothed(c.signalAlpha, opening.signal, run, k));
      EndsIs(c, opening, run, k, Min(g.seen, c.pretrigger) + k + 1, NextQuiet(c, power, h.quiet));
    }
  }

  // ---------------------------------------------------------------- noise and cooldown

  /** n samples of the same power, without triggers. */
  predicate Constant(run: seq<Tick>, power: real) {
    forall i | 0 <= i < |run| :: run[i] == Tick(power, false)
  }

  /** Idle, with the noise estimate drawn n times towards the power by the share a. */
  predicate Following(g: Gate, noise: real, power: real, a: real, n: nat) {
    !g.open && g.cooldown == 0 && g.seen > 0 && g.power.noise == Drawn(noise, power, a, n)
  }

  lemma FollowingStep(c: Config, g: Gate, noise: real, power: real, a: real, n: nat)
    requires ValidConfig(c) && !c.requiresEnergy && !c.energyTrigger && Following(g, noise, power, a, n) && g.power.noise > 0.0
    requires if power > noise then a == c.noiseAttack && g.power.noise < power <= Product(g.power.noise, c.impulseLimit)
             else a == c.noiseRelease && power <= g.power.noise && 1.0 <= c.impulseLimit
    ensures Following(Heard(c, g, power, false).0, noise, power, a, n + 1)
  {
    var m := g.power.noise;
    if power > noise {
      LimitAboveOne(m, power, c.impulseLimit);
    }
    Scale(m, 1.0, c.impulseLimit);
    Plain(m);
    DrawnNext(noise, power, a, n);
    NextPowerIs(c, g.power, true, power);
    assert Limited(c, m, power) == power;
    hide Drawn, NextPower, Ends, NextQuiet;
  }

  lemma LimitAboveOne(noise: real, power: real, limit: real)
    requires 0.0 < noise < power <= Product(noise, limit)
    ensures limit > 1.0
  {
    if limit <= 1.0 {
      Scale(noise, limit, 1.0);
      Plain(noise);
      assert false;
    }
  }

  lemma DrawnFalls(x: real, y: real, a: real, n: nat)
    requires 0.0 <= a <= 1.0 && y <= x
    ensures y <= Drawn(x, y, a, n) <= x
  {
    hide Product;
    PowBounds(1.0 - a, n);
    Scale(x - y, 0.0, Pow(1.0 - a, n));
    Scale(x - y, Pow(1.0 - a, n), 1.0);
    Plain(x - y);
    Opposite(y, x, Pow(1.0 - a, n));
  }

  lemma Opposite(y: real, x: real, p: real)
    ensures Product(y - x, p) == -Product(x - y, p)
  {}

  /**
   Without the energy condition the noise estimate of an idle detector follows a lower
   constant power exactly as the exponential average with the release share does.
   */
  lemma {:induction false} NoiseFalls(c: Config, g: Gate, run: seq<Tick>, power: real, n: nat)
    requires ValidConfig(c) && !c.requiresEnergy && !c.energyTrigger && 1.0 <= c.impulseLimit && n <= |run| && Constant(run, power)
    requires !g.open && g.cooldown == 0 && g.seen > 0 && 0.0 < power <= g.power.noise
    ensures Following(After(c, g, run, n), g.power.noise, power, c.noiseRelease, n)
  {
    hide Heard;
    if n == 0 {
      DrawnFirst(g.power.noise, power, c.noiseRelease);
    } else {
      NoiseFalls(c, g, run, power, n - 1);
      DrawnFalls(g.power.noise, power, c.noiseRelease, n - 1);
      assert run[n - 1] == Tick(power, false);
      FollowingStep(c, After(c, g, run, n - 1), g.power.noise, power, c.noiseRelease, n - 1);
    }
  }

  lemma DrawnStaysBelow(x: real, y: real, a: real, n: nat)
    requires 0.0 <= a < 1.0 && x < y
    ensures x <= Drawn(x, y, a, n) < y
  {
    hide Product;
    PowPositive(1.0 - a, n);
    PowBounds(1.0 - a, n);
    Positive(y - x, Pow(1.0 - a, n));
    Scale(y - x, Pow(1.0 - a, n), 1.0);
    Plain(y - x);
  }

  lemma {:induction false} PowPositive(x: real, n: nat)
    requires x > 0.0
    ensures Pow(x, n) > 0.0
  {
    hide Product;
    if n > 0 {
      PowPositive(x, n - 1);
      Positive(x, Pow(x, n - 1));
    }
  }

  /** And a higher one below the impulse limit with the attack share. */
  lemma {:induction false} NoiseRises(c: Config, g: Gate, run: seq<Tick>, power: real, n: nat)
    requires ValidConfig(c) && !c.requiresEnergy && !c.energyTrigger && c.noiseAttack < 1.0 && n <= |run| && Constant(run, power)
    requires !g.open && g.cooldown == 0 && g.seen > 0 && 0.0 < g.power.noise < power <= Product(g.power.noise, c.impulseLimit)
    ensures Following(After(c, g, run, n), g.power.noise, power, c.noiseAttack, n)
  {
    hide Heard;
    if n == 0 {
      DrawnFirst(g.power.noise, power, c.noiseAttack);
    } else {
      NoiseRises(c, g, run, power, n - 1);
      DrawnStaysBelow(g.power.noise, power, c.noiseAttack, n - 1);
      assert run[n - 1] == Tick(power, false);
      LimitHolds(c, g.power.noise, After(c, g, run, n - 1).power.noise, power);
      FollowingStep(c, After(c, g, run, n - 1), g.power.noise, power, c.noiseAttack, n - 1);
    }
  }

  lemma LimitHolds(c: Config, noise: real, later: real, power: real)
    requires 0.0 < noise <= later && noise < power <= Product(noise, c.impulseLimit)
    ensures power <= later * c.impulseLimit
  {
    if c.impulseLimit < 0.0 {
      Scale(noise, c.impulseLimit, 0.0);
      Plain(noise);
      assert false;
    }
    Scale(c.impulseLimit, noise, later);
  }

  /** After a close, the cooldown lasts exactly as many samples as configured, and nothing opens before it is over. */
  lemma {:induction false} CooldownLasts(c: Config, g: Gate, run: seq<Tick>, n: nat)
    requires n <= |run| && !g.open && n <= g.cooldown
    ensures After(c, g, run, n).cooldown == g.cooldown - n && !After(c, g, run, n).open
    ensures forall k | 0 <= k < n :: !OpensAt(c, g, run, k)
  {
    hide NextPower, Opens, Ends, NextQuiet;
    if n > 0 {
      CooldownLasts(c, g, run, n - 1);
    }
  }

  /** A capture that closes starts the cooldown. */
  lemma ClosingCools(c: Config, g: Gate, run: seq<Tick>, n: nat)
    requires n < |run| && ClosesAt(c, g, run, n)
    ensures var h := After(c, g, run, n + 1); !h.open && h.cooldown == c.cooldown
  {
    hide NextPower, Opens, Ends, NextQuiet;
  }
}
