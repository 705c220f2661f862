/** Sample storage of src/platform/decode_queue.c: audio in -1 .. 1 kept as 16-bit integers. */
module Quantize {

  const SCALE: real := 32767.0

  function Bounded(x: real): (r: real)
    ensures -1.0 <= r <= 1.0
  {
    if x < -1.0 then -1.0 else if x > 1.0 then 1.0 else x
  }

  /** Conversion to integer drops the fraction. */
  function Truncated(x: real): int {
    if x >= 0.0 then x.Floor else -((-x).Floor)
  }

  function Quantized(x: real): int {
    var scaled := Bounded(x) * SCALE;
    Truncated(scaled + if scaled >= 0.0 then 0.5 else -0.5)
  }

  function Restored(q: int): real {
    q as real / SCALE
  }

  lemma NearestInteger(y: real)
    ensures var q := Truncated(y + if y >= 0.0 then 0.5 else -0.5); -0.5 <= q as real - y <= 0.5
  {}

  /** A stored sample fits 16 bits and comes back within half a step of its clamped value. */
  lemma HalfStep(x: real)
    ensures -32767 <= Quantized(x) <= 32767
    ensures -1.0 / 65534.0 <= Restored(Quantized(x)) - Bounded(x) <= 1.0 / 65534.0
  {
    var y, q := Bounded(x) * SCALE, Quantized(x);
    NearestInteger(y);
    assert (Restored(q) - Bounded(x)) * SCALE == q as real - y;
  }

  /** Storing a restored sample again changes nothing. */
  lemma StoredAgain(q: int)
    requires -32767 <= q <= 32767
    ensures Quantized(Restored(q)) == q
  {
    assert -1.0 <= Restored(q) <= 1.0;
    assert Restored(q) * SCALE == q as real;
  }

  method QuantizeAll(samples: seq<real>, slot: array<int>)
    requires |samples| <= slot.Length
    modifies slot
    ensures forall i | 0 <= i < |samples| :: slot[i] == Quantized(samples[i])
    ensures forall i | |samples| <= i < slot.Length :: slot[i] == old(slot[i])
  {
    for index := 0 to |samples|
      invariant forall i | 0 <= i < index :: slot[i] == Quantized(samples[i])
      invariant forall i | index <= i < slot.Length :: slot[i] == old(slot[i])
    {
      var bounded := if samples[index] < -1.0 then -1.0 else if samples[index] > 1.0 then 1.0 else samples[index];
      var scaled := bounded * SCALE;
      slot[index] := Truncated(scaled + if scaled >= 0.0 then 0.5 else -0.5);
    }
  }

  method RestoreAll(slot: seq<int>, samples: array<real>)
    requires |slot| <= samples.Length
    modifies samples
    ensures forall i | 0 <= i < |slot| :: samples[i] == Restored(slot[i])
    ensures forall i | |slot| <= i < samples.Length :: samples[i] == old(samples[i])
  {
    for index := 0 to |slot|
      invariant forall i | 0 <= i < index :: samples[i] == Restored(slot[i])
      invariant forall i | index <= i < samples.Length :: samples[i] == old(samples[i])
    {
      samples[index] := slot[index] as real / SCALE;
    }
  }
}
