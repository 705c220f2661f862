/**
 Bit rates of src/modem/rate.c: the rate a profile promises above the frame layer
 never exceeds what the code rate leaves of the raw rate, and its frame length is
 the number of samples that a transmission really takes.
 */
module Rate {
  import opened Arithmetic
  import opened Bits
  import FL = FecLayout
  import opened Symbols
  import opened Modem

  const MAX_AUDIO_SAMPLES: nat := 90000
  const UINT32_MAX: nat := 0xffff_ffff

  /** The part of a PHY profile that `rtnc_phy_profile_is_valid` ties together. */
  datatype Profile = Profile(sampleRate: nat, bits: nat, baud: nat, samplesPerSymbol: nat)

  predicate ValidProfile(p: Profile) {
    && p.sampleRate > 0 && p.baud > 0 && p.sampleRate % p.baud == 0
    && p.samplesPerSymbol == p.sampleRate / p.baud && 20 <= p.samplesPerSymbol <= 80 && SymbolWidth(p.bits)
  }

  datatype RateResult = NoRate | Rates(raw: nat, fec: nat, link: nat, frameSamples: nat)

  function FrameSymbols(mode: FL.Mode, payloadClass: nat, b: nat): (s: nat)
    requires SymbolWidth(b)
    ensures s >= TRAINING_SYMBOLS
  {
    TRAINING_SYMBOLS + SymbolCount(FL.EncodedSize(mode, ProtectedBytes(payloadClass)), b) + TRAILING_SYMBOLS
  }

  function FecRate(mode: FL.Mode, raw: nat): nat {
    if mode == FL.Robust then raw / 2 else if mode == FL.Normal then raw * 2 / 3 else raw
  }

  function FrameSamples(p: Profile, mode: FL.Mode, payloadClass: nat): (n: nat)
    requires SymbolWidth(p.bits) && p.samplesPerSymbol > 0
    ensures n > 0
  {
    FrameTakesTime(FrameSymbols(mode, payloadClass, p.bits), p.samplesPerSymbol);
    FrameSymbols(mode, payloadClass, p.bits) * p.samplesPerSymbol
  }

  function ProfileRate(p: Profile, mode: FL.Mode, payloadClass: nat): (r: RateResult)
    ensures r.Rates? ==> ValidProfile(p) && (payloadClass == 64 || payloadClass == 128) && mode != FL.Fast
    ensures r.Rates? ==> r.frameSamples <= MAX_AUDIO_SAMPLES && r.raw <= UINT32_MAX
  {
    if !ValidProfile(p) || (payloadClass != 64 && payloadClass != 128) || mode == FL.Fast then NoRate
    else RatesFor(p, mode, payloadClass, FrameSamples(p, mode, payloadClass))
  }

  function RatesFor(p: Profile, mode: FL.Mode, payloadClass: nat, frameSamples: nat): (r: RateResult)
    requires frameSamples > 0 && payloadClass > 0
    ensures r.Rates? ==> r.frameSamples <= MAX_AUDIO_SAMPLES && r.raw <= UINT32_MAX
  {
    var raw := p.baud * p.bits;
    var fec := FecRate(mode, raw);
    var link := (payloadClass - 1) * 8 * p.sampleRate / frameSamples;
    if frameSamples > MAX_AUDIO_SAMPLES || raw > UINT32_MAX || fec > UINT32_MAX || link > UINT32_MAX then NoRate
    else Rates(raw, fec, link, frameSamples)
  }

  lemma FrameTakesTime(symbols: nat, samples: nat)
    requires symbols > 0 && samples > 0
    ensures symbols * samples > 0
  {}

  /** Payload bits of a frame fit the coded bits of its symbols, for every mode, class and symbol width. */
  lemma FrameCarriesPayload(mode: FL.Mode, payloadClass: nat, b: nat)
    requires (payloadClass == 64 || payloadClass == 128) && SymbolWidth(b) && mode != FL.Fast
    ensures var s, data := b * FrameSymbols(mode, payloadClass, b), (payloadClass - 1) * 8;
      if mode == FL.Robust then 2 * data <= s else if mode == FL.Normal then 3 * data <= 2 * s else data <= s
  {
    var e := FL.EncodedSize(mode, ProtectedBytes(payloadClass));
    CodedSizes(mode, payloadClass);
    SymbolsHold(e, b);
    hide FL.EncodedSize, SymbolCount, ProtectedBytes;
  }

  lemma CodedSizes(mode: FL.Mode, payloadClass: nat)
    requires (payloadClass == 64 || payloadClass == 128) && mode != FL.Fast
    ensures var e := FL.EncodedSize(mode, ProtectedBytes(payloadClass));
      e == if mode == FL.Robust then (if payloadClass == 64 then 144 else 272)
           else if mode == FL.Normal then (if payloadClass == 64 then 108 else 204) else payloadClass + 3
  {}

  lemma SymbolsHold(bytes: nat, b: nat)
    requires SymbolWidth(b)
    ensures b * (TRAINING_SYMBOLS + SymbolCount(bytes, b) + TRAILING_SYMBOLS) >= 8 * bytes
  {
    AllPlaced(bytes, b);
    hide SymbolCount;
    assert Place(SymbolCount(bytes, b), b, 0) == SymbolCount(bytes, b) * b;
    Times(b, SymbolCount(bytes, b), TRAINING_SYMBOLS + SymbolCount(bytes, b) + TRAILING_SYMBOLS);
  }

  /** A frame rate of baud / symbols frames a second, each with `data` bits, is at most the share num / den of the raw rate. */
  lemma LinkBelow(data: nat, baud: nat, b: nat, samples: nat, symbols: nat, num: nat, den: nat, link: nat)
    requires samples > 0 && symbols > 0 && den > 0 && den * data <= num * (b * symbols)
    requires link == data * (baud * samples) / (symbols * samples)
    ensures den * link <= num * (baud * b)
  {
    FrameTakesTime(symbols, samples);
    PerSymbol(data, baud, samples, symbols, link);
    ShareOf(data, baud, b, symbols, num, den, link);
  }

  /** The sampling rate cancels. */
  lemma PerSymbol(data: nat, baud: nat, samples: nat, symbols: nat, link: nat)
    requires samples > 0 && symbols * samples > 0 && link == data * (baud * samples) / (symbols * samples)
    ensures symbols * link <= data * baud
  {
    var x := data * (baud * samples);
    assert (symbols * samples) * link <= x;
    assert (symbols * samples) * link == samples * (symbols * link);
    assert x == samples * (data * baud);
    Divides(samples, symbols * link, data * baud);
  }

  lemma ShareOf(data: nat, baud: nat, b: nat, symbols: nat, num: nat, den: nat, link: nat)
    requires symbols > 0 && den * data <= num * (b * symbols) && symbols * link <= data * baud
    ensures den * link <= num * (baud * b)
  {
    Times(den, symbols * link, data * baud);
    Times(baud, den * data, num * (b * symbols));
    assert den * (data * baud) == baud * (den * data);
    assert baud * (num * (b * symbols)) == symbols * (num * (baud * b));
    assert den * (symbols * link) == symbols * (den * link);
    Divides(symbols, den * link, num * (baud * b));
  }

  lemma Divides(n: nat, x: nat, y: nat)
    requires n > 0 && n * x <= n * y
    ensures x <= y
  {
    if y < x {
      Times(n, y + 1, x);
    }
  }

  lemma SampleRateIs(p: Profile)
    requires ValidProfile(p)
    ensures p.sampleRate == p.baud * p.samplesPerSymbol
  {}

  /** Link rate <= rate after FEC <= raw rate, for every profile for which there is a rate. */
  lemma RatesAreOrdered(p: Profile, mode: FL.Mode, payloadClass: nat)
    requires ProfileRate(p, mode, payloadClass).Rates?
    ensures var r := ProfileRate(p, mode, payloadClass); r.link <= r.fec <= r.raw
  {
    var r, s := ProfileRate(p, mode, payloadClass), FrameSymbols(mode, payloadClass, p.bits);
    SampleRateIs(p);
    FrameCarriesPayload(mode, payloadClass, p.bits);
    hide FrameSymbols, ValidProfile;
    if mode == FL.Robust {
      LinkBelow((payloadClass - 1) * 8, p.baud, p.bits, p.samplesPerSymbol, s, 1, 2, r.link);
    } else if mode == FL.Normal {
      LinkBelow((payloadClass - 1) * 8, p.baud, p.bits, p.samplesPerSymbol, s, 2, 3, r.link);
    } else {
      LinkBelow((payloadClass - 1) * 8, p.baud, p.bits, p.samplesPerSymbol, s, 1, 1, r.link);
    }
  }

  /** In the LDPC modes every payload takes the same number of samples, the one announced. */
  lemma FrameLengthIsExact(p: Profile, mode: FL.Mode, payloadClass: nat, payload: seq<Byte>)
    requires ProfileRate(p, mode, payloadClass).Rates? && FL.Coded(mode) && 0 < |payload| <= payloadClass
    ensures ProfileRate(p, mode, payloadClass).frameSamples
         == (96 + |SymbolsOf(Sent(mode, payloadClass, payload), p.bits)| + 16) * p.samplesPerSymbol
  {
    hide Sent, SymbolsOf;
    Sizes(mode, payloadClass);
  }

  lemma Regroup(a: nat, b: nat, c: nat)
    ensures a * (b * c) == (a * b) * c
  {}

  lemma Spread(whole: nat, q: nat, r: nat, n: nat)
    ensures (whole * q + r) * n == (whole * n) * q + r * n
  {}

  lemma Less(r: nat, whole: nat, n: nat)
    requires r < whole && n > 0
    ensures r * n < whole * n
  {}

  lemma Share(raw: nat, part: nat, whole: nat, n: nat)
    requires whole > 0 && n > 0
    ensures whole * n > 0 && raw * (part * n) / (whole * n) == raw * part / whole
  {
    var x := raw * part;
    Regroup(raw, part, n);
    Scaled(x, whole, n);
  }

  lemma Scaled(x: nat, whole: nat, n: nat)
    requires whole > 0 && n > 0
    ensures whole * n > 0 && x * n / (whole * n) == x / whole
  {
    var q, r := x / whole, x % whole;
    Less(r, whole, n);
    Spread(whole, q, r, n);
    Quotient(x * n, whole * n, q, r * n);
  }

  /** The rate after FEC is the share of input among what the encoder sends for n blocks. */
  lemma FecRateIsCodeRate(mode: FL.Mode, raw: nat, n: nat)
    requires FL.Coded(mode) && n > 0 && 16 * n < FL.WORD && 8 * n <= FL.SIZE_MAX - 7
    ensures FL.EncodedSize(mode, 8 * n) > 0 && FecRate(mode, raw) == raw * (8 * n) / FL.EncodedSize(mode, 8 * n)
  {
    WholeBlocks(mode, n);
    Share(raw, 8, if mode == FL.Robust then 16 else 12, n);
    Reduced(raw);
    hide FL.EncodedSize;
  }

  lemma WholeBlocks(mode: FL.Mode, n: nat)
    requires FL.Coded(mode) && n > 0 && 16 * n < FL.WORD && 8 * n <= FL.SIZE_MAX - 7
    ensures FL.EncodedSize(mode, 8 * n) == (if mode == FL.Robust then 16 else 12) * n
  {
    FL.AllBlocksSent(mode, 8 * n);
    hide FL.EncodedSize;
    assert FL.BlockCount(8 * n) == n;
  }

  lemma Reduced(raw: nat)
    ensures raw * 8 / 16 == raw / 2 && raw * 8 / 12 == raw * 2 / 3
  {}

  /** The link rate is payload bits by time: a frame carries one payload less its fragment header. */
  lemma LinkRateIs(p: Profile, mode: FL.Mode, payloadClass: nat)
    requires ProfileRate(p, mode, payloadClass).Rates?
    ensures var r := ProfileRate(p, mode, payloadClass); var bits := 8 * (payloadClass - 1) * p.sampleRate;
      r.link * r.frameSamples <= bits < (r.link + 1) * r.frameSamples && r.raw == p.baud * p.bits
  {
    hide FrameSamples;
    var r, bits := ProfileRate(p, mode, payloadClass), (payloadClass - 1) * 8 * p.sampleRate;
    assert r.link == bits / r.frameSamples;
    assert bits == r.frameSamples * (bits / r.frameSamples) + bits % r.frameSamples;
  }
}
