/**
 The LDPC framing paths of src/modem/offline.c: payload, frame, zero padding to the
 payload class, codewords, symbols; and back. The analog part between the symbol
 mapper and the demapper is a channel whose soft values lean the right way.
 */
module Modem {
  import opened Limits
  import opened Signs
  import opened Bits
  import opened Frame
  import opened BlockOrder
  import FL = FecLayout
  import opened Fec
  import opened FecDecode
  import opened FecRoundTrip
  import opened Symbols

  const MAX_PROTECTED_BYTES: nat := 160
  const MAX_FEC_BYTES: nat := 320

  const TRAINING_SYMBOLS: nat := 96
  const TRAILING_SYMBOLS: nat := 16

  datatype ModemStatus = Success | TruncatedFrame | FrameRejected | BufferTooSmall

  predicate Configured(mode: FL.Mode, payloadClass: nat, b: nat) {
    FL.Coded(mode) && (payloadClass == 64 || payloadClass == 128) && SymbolWidth(b)
  }

  function ProtectedBytes(payloadClass: nat): nat {
    HEADER_SIZE + payloadClass + CRC_SIZE
  }

  function Blocks(payloadClass: nat): nat {
    FL.BlockCount(ProtectedBytes(payloadClass))
  }

  function EncodedBytes(mode: FL.Mode, payloadClass: nat): nat
    requires FL.Coded(mode)
  {
    FL.SentBytes(mode, Blocks(payloadClass))
  }

  lemma Sizes(mode: FL.Mode, payloadClass: nat)
    requires FL.Coded(mode) && (payloadClass == 64 || payloadClass == 128)
    ensures FL.EncodedSize(mode, ProtectedBytes(payloadClass)) == EncodedBytes(mode, payloadClass) <= MAX_FEC_BYTES
    ensures FL.BlocksSent(mode, ProtectedBytes(payloadClass)) == Blocks(payloadClass)
    ensures 8 * Blocks(payloadClass) <= MAX_PROTECTED_BYTES && Blocks(payloadClass) <= FL.MAX_BLOCKS
    ensures 8 * EncodedBytes(mode, payloadClass) == FL.Values(mode, Blocks(payloadClass)) == Blocks(payloadClass) * FL.Width(mode)
    ensures ProtectedBytes(payloadClass) <= 8 * Blocks(payloadClass)
  {
    FL.AllBlocksSent(mode, ProtectedBytes(payloadClass));
    hide FL.EncodedSize, FL.BlocksSent;
  }

  // ---------------------------------------------------------------- transmit

  /** The frame in a buffer of the class's size, zeros behind it. */
  function Filled(payload: seq<Byte>, payloadClass: nat): (r: seq<Byte>)
    requires Framable(payload) && |payload| <= payloadClass
    ensures |r| == ProtectedBytes(payloadClass)
  {
    FrameOf(payload) + seq(payloadClass - |payload|, i => 0)
  }

  function Sent(mode: FL.Mode, payloadClass: nat, payload: seq<Byte>): (r: seq<Byte>)
    requires FL.Coded(mode) && Framable(payload) && |payload| <= payloadClass
    ensures |r| == EncodedBytes(mode, payloadClass)
  {
    Encoded(mode, Filled(payload, payloadClass), Blocks(payloadClass))
  }

  method Protect(payload: seq<Byte>, payloadClass: nat) returns (bytes: seq<Byte>)
    requires Framable(payload) && |payload| <= payloadClass <= MAX_PAYLOAD
    ensures bytes == Filled(payload, payloadClass)
  {
    hide FrameOf;
    var frame := new Byte[MAX_PAYLOAD + 3];
    var status, length := FrameBuild(payload, frame, MAX_PAYLOAD + 3);
    var buffer := new Byte[MAX_PAYLOAD + 3](i => 0);
    CopyInto(frame[..length], buffer, 0);
    bytes := buffer[..ProtectedBytes(payloadClass)];
    assert bytes == Filled(payload, payloadClass);
  }

  /** Training, payload and trailing symbols. */
  function TransmittedSymbols(symbols: seq<nat>): nat {
    TRAINING_SYMBOLS + |symbols| + TRAILING_SYMBOLS
  }

  /** `rtnc_modem_tx_audio` up to the symbol mapper, with the room it demands for the samples. */
  method Transmit(mode: FL.Mode, payloadClass: nat, b: nat, samplesPerSymbol: nat, payload: seq<Byte>, capacity: nat)
    returns (status: ModemStatus, symbols: seq<nat>)
    requires Configured(mode, payloadClass, b)
    ensures status == FrameRejected <==> payload == [] || |payload| > payloadClass
    ensures 0 < |payload| <= payloadClass ==>
      var sent := SymbolsOf(Sent(mode, payloadClass, payload), b);
      if TransmittedSymbols(sent) * samplesPerSymbol > capacity then status == ModemStatus.BufferTooSmall else status == Success && symbols == sent
  {
    hide Encoded, SymbolsOf, Filled;
    if |payload| == 0 || |payload| > payloadClass {
      return FrameRejected, [];
    }
    var bytes := Protect(payload, payloadClass);
    var encoded := new Byte[MAX_FEC_BYTES];
    Sizes(mode, payloadClass);
    var fec, length := FecEncode(mode, bytes, encoded, MAX_FEC_BYTES);
    var required := TRAINING_SYMBOLS + SymbolCount(length, b) + TRAILING_SYMBOLS;
    if required * samplesPerSymbol > capacity {
      return ModemStatus.BufferTooSmall, [];
    }
    symbols := EmitSymbols(encoded[..length], b);
    return Success, symbols;
  }

  // ---------------------------------------------------------------- receive

  /** What the frame layer makes of a decoded block sequence. */
  ghost predicate Delivered(payloadClass: nat, decoded: seq<Byte>, capacity: nat, status: ModemStatus, payload: seq<Byte>)
    requires |decoded| >= ProtectedBytes(payloadClass)
  {
    var declared := Declared(decoded[0]);
    if declared <= payloadClass && Accepted(decoded[..declared + 3], capacity) then status == Success && payload == decoded[1..1 + declared]
    else status == FrameRejected
  }

  /** What one reception reports, from the soft values on. */
  ghost predicate Received(mode: FL.Mode, payloadClass: nat, llr: seq<real>, capacity: nat, status: ModemStatus, payload: seq<Byte>)
    requires FL.Coded(mode) && |llr| == FL.Values(mode, Blocks(payloadClass))
  {
    var n := Blocks(payloadClass);
    if AllConverge(mode, llr, n) then
      var decoded := Output(mode, llr, n);
      |decoded| >= ProtectedBytes(payloadClass) && Delivered(payloadClass, decoded, capacity, status, payload)
    else status == FrameRejected
  }

  method ParseDecoded(payloadClass: nat, decoded: seq<Byte>, capacity: nat) returns (status: ModemStatus, payload: seq<Byte>)
    requires |decoded| >= ProtectedBytes(payloadClass)
    ensures Delivered(payloadClass, decoded, capacity, status, payload) && status != TruncatedFrame
  {
    hide Intact;
    payload := [];
    var declared := Declared(decoded[0]);
    if declared > payloadClass {
      return FrameRejected, [];
    }
    var buffer := new Byte[capacity];
    var frame := decoded[..declared + 3];
    var parsed, length := FrameParse(frame, buffer, capacity);
    if parsed != FrameStatus.Ok {
      return FrameRejected, [];
    }
    return Success, buffer[..length];
  }

  predicate Soft(demapped: seq<Demapped>, b: nat) {
    forall k | 0 <= k < |demapped| :: |demapped[k].llr| >= b
  }

  /** What decoding one sequence of demapped symbols reports. */
  ghost predicate Passed(mode: FL.Mode, payloadClass: nat, b: nat, demapped: seq<Demapped>, capacity: nat, status: ModemStatus, payload: seq<Byte>)
    requires Configured(mode, payloadClass, b) && Soft(demapped, b)
  {
    var expected := EncodedBytes(mode, payloadClass);
    Sizes(mode, payloadClass);
    if |demapped| < SymbolCount(expected, b) then status == TruncatedFrame
    else Received(mode, payloadClass, Llrs(demapped, expected, b), capacity, status, payload)
  }

  /** The symbols suffice and some block does not converge. */
  ghost predicate Undecoded(mode: FL.Mode, payloadClass: nat, b: nat, demapped: seq<Demapped>)
    requires Configured(mode, payloadClass, b) && Soft(demapped, b)
  {
    var expected := EncodedBytes(mode, payloadClass);
    Sizes(mode, payloadClass);
    |demapped| >= SymbolCount(expected, b) && !AllConverge(mode, Llrs(demapped, expected, b), Blocks(payloadClass))
  }

  /** One pass from the demapper on; `undecoded` reports a decoder failure. */
  method DecodePass(mode: FL.Mode, payloadClass: nat, b: nat, demapped: seq<Demapped>, capacity: nat)
    returns (status: ModemStatus, payload: seq<Byte>, undecoded: bool)
    requires Configured(mode, payloadClass, b) && Soft(demapped, b)
    ensures Passed(mode, payloadClass, b, demapped, capacity, status, payload)
    ensures undecoded == Undecoded(mode, payloadClass, b, demapped)
    ensures undecoded ==> status == FrameRejected
  {
    hide Output, AllConverge, Delivered, Llrs, SymbolCount, Iterations, SumTo;
    payload := [];
    Sizes(mode, payloadClass);
    var expected := EncodedBytes(mode, payloadClass);
    if |demapped| < SymbolCount(expected, b) {
      return TruncatedFrame, [], false;
    }
    var hard := new Byte[expected];
    var llr := new real[8 * MAX_FEC_BYTES];
    DecodeBytes(demapped, expected, b, hard, llr);
    var values := llr[..8 * expected];
    var frame := new Byte[MAX_PROTECTED_BYTES];
    WholeClass(mode, payloadClass, |values|);
    var fec, bytes, stats := FecDecodeAll(mode, values, frame, MAX_PROTECTED_BYTES);
    if fec != FL.Ok {
      return FrameRejected, [], true;
    }
    status, payload := ParseDecoded(payloadClass, frame[..bytes], capacity);
    undecoded := false;
  }

  /**
   The demapped symbols of one reception: as tracked, and as the equalizer would
   recover them, trained on the preamble only or also directed by decisions.
   */
  datatype Passes = Passes(plain: seq<Demapped>, trained: seq<Demapped>, directed: seq<Demapped>)

  predicate SoftPasses(passes: Passes, b: nat) {
    Soft(passes.plain, b) && Soft(passes.trained, b) && Soft(passes.directed, b)
  }

  /** The equalizer retry: a second attempt directed by decisions follows a rejected first one. */
  ghost predicate Retried(mode: FL.Mode, payloadClass: nat, b: nat, passes: Passes, capacity: nat, status: ModemStatus, payload: seq<Byte>)
    requires Configured(mode, payloadClass, b) && SoftPasses(passes, b)
  {
    if Rejects(mode, payloadClass, b, passes.trained, capacity) then
      Passed(mode, payloadClass, b, passes.directed, capacity, status, payload)
    else Passed(mode, payloadClass, b, passes.trained, capacity, status, payload)
  }

  ghost predicate Rejects(mode: FL.Mode, payloadClass: nat, b: nat, demapped: seq<Demapped>, capacity: nat)
    requires Configured(mode, payloadClass, b) && Soft(demapped, b)
  {
    Passed(mode, payloadClass, b, demapped, capacity, FrameRejected, [])
  }

  /** What a reception reports: only a decoder failure of the plain pass leads to the retry. */
  ghost predicate Reception(mode: FL.Mode, payloadClass: nat, b: nat, passes: Passes, capacity: nat, allowEqualizer: bool,
                            status: ModemStatus, payload: seq<Byte>)
    requires Configured(mode, payloadClass, b) && SoftPasses(passes, b)
  {
    if allowEqualizer && Undecoded(mode, payloadClass, b, passes.plain) then
      Retried(mode, payloadClass, b, passes, capacity, status, payload)
    else Passed(mode, payloadClass, b, passes.plain, capacity, status, payload)
  }

  /** A pass is rejected or not, whatever payload is reported with it. */
  lemma RejectedIs(mode: FL.Mode, payloadClass: nat, b: nat, demapped: seq<Demapped>, capacity: nat, status: ModemStatus, payload: seq<Byte>)
    requires Configured(mode, payloadClass, b) && Soft(demapped, b) && Passed(mode, payloadClass, b, demapped, capacity, status, payload)
    ensures status == FrameRejected <==> Rejects(mode, payloadClass, b, demapped, capacity)
  {
    hide Output, AllConverge, Llrs, SymbolCount, Accepted;
  }

  /** `rtnc_modem_rx_audio` and, without the equalizer, `rtnc_modem_rx_audio_fast`, from the demapper on. */
  method Receive(mode: FL.Mode, payloadClass: nat, b: nat, passes: Passes, capacity: nat, allowEqualizer: bool)
    returns (status: ModemStatus, payload: seq<Byte>)
    requires Configured(mode, payloadClass, b) && SoftPasses(passes, b)
    ensures Reception(mode, payloadClass, b, passes, capacity, allowEqualizer, status, payload)
  {
    hide Passed, Undecoded, Rejects;
    var undecoded;
    status, payload, undecoded := DecodePass(mode, payloadClass, b, passes.plain, capacity);
    if undecoded && allowEqualizer {
      status, payload, undecoded := DecodePass(mode, payloadClass, b, passes.trained, capacity);
      RejectedIs(mode, payloadClass, b, passes.trained, capacity, status, payload);
      if status == FrameRejected {
        status, payload, undecoded := DecodePass(mode, payloadClass, b, passes.directed, capacity);
      }
    }
  }

  lemma WholeClass(mode: FL.Mode, payloadClass: nat, count: nat)
    requires FL.Coded(mode) && (payloadClass == 64 || payloadClass == 128) && count == FL.Values(mode, Blocks(payloadClass))
    ensures WholeBlocks(mode, count) && count / FL.Width(mode) == Blocks(payloadClass)
  {}

  // ---------------------------------------------------------------- end to end

  /** Through a faithful channel the soft values of the sent bytes have the right signs. */
  lemma SignsArrive(bytes: seq<Byte>, demapped: seq<Demapped>, b: nat)
    requires SymbolWidth(b) && FaithfulChannel(SymbolsOf(bytes, b), demapped, b)
    ensures Demaps(demapped, |bytes|, b) && RightSigns(Llrs(demapped, |bytes|, b), BitsOf(bytes))
  {
    assert Demaps(demapped, |bytes|, b);
    hide FaithfulChannel, SymbolsOf, BitsOf, Llrs, Signed, Demaps;
    var llr := Llrs(demapped, |bytes|, b);
    forall i | 0 <= i < 8 * |bytes| ensures Signed(llr[i], BitsOf(bytes)[i]) > 0.0 {
      StreamArrives(bytes, demapped, b, i);
    }
  }

  lemma FrameInside(payload: seq<Byte>, payloadClass: nat, n: nat)
    requires Framable(payload) && |payload| <= payloadClass && 8 * n >= ProtectedBytes(payloadClass)
    ensures var decoded := FL.Padded(Filled(payload, payloadClass), n);
      Declared(decoded[0]) == |payload| && decoded[..|payload| + 3] == FrameOf(payload) && decoded[1..1 + |payload|] == payload
  {
    FrameShape(payload);
    hide FrameOf;
    var decoded := FL.Padded(Filled(payload, payloadClass), n);
    assert decoded[..|payload| + 3] == FrameOf(payload);
    assert decoded[1..1 + |payload|] == FrameOf(payload)[1..1 + |payload|];
  }

  /** The channel carried the symbols of this payload to the pass. */
  ghost predicate Carried(mode: FL.Mode, payloadClass: nat, b: nat, payload: seq<Byte>, demapped: seq<Demapped>)
    requires Configured(mode, payloadClass, b) && Framable(payload) && |payload| <= payloadClass
  {
    FaithfulChannel(SymbolsOf(Sent(mode, payloadClass, payload), b), demapped, b)
  }

  /** A pass over a faithful channel delivers the payload; its blocks converge. */
  lemma PassRecovers(mode: FL.Mode, payloadClass: nat, b: nat, payload: seq<Byte>, demapped: seq<Demapped>, capacity: nat,
                     status: ModemStatus, received: seq<Byte>)
    requires Configured(mode, payloadClass, b) && 0 < |payload| <= payloadClass && capacity >= |payload| && Soft(demapped, b)
    requires Carried(mode, payloadClass, b, payload, demapped)
    ensures !Undecoded(mode, payloadClass, b, demapped)
    ensures Passed(mode, payloadClass, b, demapped, capacity, status, received) ==> status == Success && received == payload
  {
    hide Encoded, Filled, Llrs, BitsOf, FaithfulChannel, Received, Sent, SymbolsOf, RightSigns, AllConverge, SymbolCount;
    var sent := Sent(mode, payloadClass, payload);
    Sizes(mode, payloadClass);
    SignsArrive(sent, demapped, b);
    BlocksConverge(mode, payloadClass, payload, Llrs(demapped, |sent|, b));
    if Passed(mode, payloadClass, b, demapped, capacity, status, received) {
      BlocksRecover(mode, payloadClass, payload, Llrs(demapped, |sent|, b), capacity, status, received);
    }
  }

  lemma BlocksConverge(mode: FL.Mode, payloadClass: nat, payload: seq<Byte>, llr: seq<real>)
    requires FL.Coded(mode) && (payloadClass == 64 || payloadClass == 128) && 0 < |payload| <= payloadClass
    requires |llr| == FL.Values(mode, Blocks(payloadClass)) && RightSigns(llr, BitsOf(Sent(mode, payloadClass, payload)))
    ensures AllConverge(mode, llr, Blocks(payloadClass))
  {
    hide Encoded, Filled, AllConverge, Output, BitsOf, RightSigns, FrameOf;
    Sizes(mode, payloadClass);
    FecRoundTrips(mode, Filled(payload, payloadClass), llr);
  }

  /**
   Every payload of 1 to 64 or 128 bytes, in both LDPC modes and with 1 to 4 bits a
   symbol: what `Transmit` maps and a faithful channel carries, `Receive` delivers,
   with the equalizer allowed or not.
   */
  lemma EndToEnd(mode: FL.Mode, payloadClass: nat, b: nat, payload: seq<Byte>, passes: Passes, capacity: nat, allowEqualizer: bool,
                 status: ModemStatus, received: seq<Byte>)
    requires Configured(mode, payloadClass, b) && 0 < |payload| <= payloadClass && capacity >= |payload| && SoftPasses(passes, b)
    requires Reception(mode, payloadClass, b, passes, capacity, allowEqualizer, status, received)
    requires Carried(mode, payloadClass, b, payload, passes.plain)
    ensures status == Success && received == payload
  {
    hide Carried, Passed, Undecoded, Retried;
    PassRecovers(mode, payloadClass, b, payload, passes.plain, capacity, status, received);
  }

  /**
   When the plain pass fails to decode, a payload that the equalizer recovers is
   delivered: by the trained pass, or by the directed one if the trained is rejected.
   */
  lemma RetryEndToEnd(mode: FL.Mode, payloadClass: nat, b: nat, payload: seq<Byte>, passes: Passes, capacity: nat,
                      status: ModemStatus, received: seq<Byte>)
    requires Configured(mode, payloadClass, b) && 0 < |payload| <= payloadClass && capacity >= |payload| && SoftPasses(passes, b)
    requires Reception(mode, payloadClass, b, passes, capacity, true, status, received)
    requires Undecoded(mode, payloadClass, b, passes.plain)
    requires Carried(mode, payloadClass, b, payload,
      if Rejects(mode, payloadClass, b, passes.trained, capacity) then passes.directed else passes.trained)
    ensures status == Success && received == payload
  {
    hide Carried, Passed, Undecoded, Rejects;
    if Rejects(mode, payloadClass, b, passes.trained, capacity) {
      PassRecovers(mode, payloadClass, b, payload, passes.directed, capacity, status, received);
    } else {
      PassRecovers(mode, payloadClass, b, payload, passes.trained, capacity, status, received);
    }
  }

  /** Right-signed values of a sent payload: the blocks converge, the frame is intact, the payload comes out. */
  lemma BlocksRecover(mode: FL.Mode, payloadClass: nat, payload: seq<Byte>, llr: seq<real>, capacity: nat, status: ModemStatus, received: seq<Byte>)
    requires FL.Coded(mode) && (payloadClass == 64 || payloadClass == 128) && 0 < |payload| <= payloadClass && capacity >= |payload|
    requires |llr| == FL.Values(mode, Blocks(payloadClass)) && RightSigns(llr, BitsOf(Sent(mode, payloadClass, payload)))
    requires Received(mode, payloadClass, llr, capacity, status, received)
    ensures status == Success && received == payload
  {
    hide Encoded, Filled, AllConverge, Output, BitsOf, RightSigns, Delivered, FrameOf;
    Sizes(mode, payloadClass);
    FecRoundTrips(mode, Filled(payload, payloadClass), llr);
    FrameComesOut(payloadClass, payload, Blocks(payloadClass), capacity, status, received);
  }

  lemma FrameComesOut(payloadClass: nat, payload: seq<Byte>, n: nat, capacity: nat, status: ModemStatus, received: seq<Byte>)
    requires Framable(payload) && |payload| <= payloadClass && 8 * n >= ProtectedBytes(payloadClass) && capacity >= |payload|
    requires Delivered(payloadClass, FL.Padded(Filled(payload, payloadClass), n), capacity, status, received)
    ensures status == Success && received == payload
  {
    FrameInside(payload, payloadClass, n);
    FrameIsIntact(payload);
    hide Intact, Filled, FrameOf, FL.Padded, LengthFits;
  }
}
