/**
 Frames of src/framing/frame.c: a length byte, 1 to 128 payload bytes, and the CRC
 of both. `ParsesExactly` ties parsing to building; the last section says which
 transmission errors a parser of the same length always notices.
 */
module Frame {
  import opened Limits
  import opened Bits
  import opened Octets
  import opened Crc
  import opened CrcErrors

  const HEADER_SIZE: nat := 1
  const CRC_SIZE: nat := 2

  datatype FrameStatus = Ok | InvalidLength | BufferTooSmall | CrcFailure

  predicate Framable(payload: seq<Byte>) {
    0 < |payload| <= MAX_PAYLOAD
  }

  function LengthByte(n: nat): Byte
    requires 0 < n <= MAX_PAYLOAD
  {
    (n - 1) as Byte
  }

  /** The length a header byte declares. */
  function Declared(header: Byte): (n: nat)
    ensures 0 < n <= 256
  {
    header as nat + 1
  }

  lemma DeclaredLength(n: nat)
    requires 0 < n <= MAX_PAYLOAD
    ensures Declared(LengthByte(n)) == n
  {
    OctetValue(n - 1);
  }

  lemma LengthDeclared(header: Byte)
    requires Declared(header) <= MAX_PAYLOAD
    ensures LengthByte(Declared(header)) == header
  {}

  /** Length byte and payload. */
  function Protected(payload: seq<Byte>): seq<Byte>
    requires Framable(payload)
  {
    [LengthByte(|payload|)] + payload
  }

  function Check(data: seq<Byte>): seq<Byte> {
    var crc := FeedAll(PRESET, BitsOf(data));
    [Hi(crc), Lo(crc)]
  }

  /** The frame that carries a payload. */
  function FrameOf(payload: seq<Byte>): (r: seq<Byte>)
    requires Framable(payload)
    ensures |r| == HEADER_SIZE + |payload| + CRC_SIZE
  {
    Protected(payload) + Check(Protected(payload))
  }

  /** The register returns to zero over the whole frame. */
  predicate Intact(encoded: seq<Byte>) {
    FeedAll(PRESET, BitsOf(encoded)) == 0
  }

  predicate LengthFits(encoded: seq<Byte>) {
    && |encoded| >= HEADER_SIZE + CRC_SIZE
    && Declared(encoded[0]) <= MAX_PAYLOAD
    && |encoded| == HEADER_SIZE + Declared(encoded[0]) + CRC_SIZE
  }

  // ---------------------------------------------------------------- build and parse

  method FrameBuild(payload: seq<Byte>, encoded: array<Byte>, capacity: nat) returns (status: FrameStatus, length: nat)
    requires capacity <= encoded.Length
    modifies encoded
    ensures status == InvalidLength <==> !Framable(payload)
    ensures status == BufferTooSmall <==> Framable(payload) && capacity < |payload| + 3
    ensures status == Ok ==> length == |payload| + 3 && encoded[..length] == FrameOf(payload)
    ensures status != Ok ==> encoded[..] == old(encoded[..])
    ensures status != CrcFailure
  {
    hide FeedAll, BitsOf, Hi, Lo, LengthByte;
    length := 0;
    if |payload| == 0 || |payload| > MAX_PAYLOAD {
      return InvalidLength, 0;
    }
    var required := HEADER_SIZE + |payload| + CRC_SIZE;
    if capacity < required {
      return BufferTooSmall, 0;
    }
    encoded[0] := LengthByte(|payload|);
    CopyInto(payload, encoded, HEADER_SIZE);
    assert encoded[..HEADER_SIZE + |payload|] == Protected(payload);
    var crc := CrcOf(encoded[..HEADER_SIZE + |payload|]);
    var high, low := Split(crc);
    encoded[required - 2] := high;
    encoded[required - 1] := low;
    assert encoded[..required] == Protected(payload) + [high, low];
    return Ok, required;
  }

  method Split(crc: Word) returns (high: Byte, low: Byte)
    ensures high == Hi(crc) && low == Lo(crc)
  {
    high := (crc >> 8) as Byte;
    low := (crc & 0xff) as Byte;
  }

  method FrameParse(encoded: seq<Byte>, payload: array<Byte>, capacity: nat) returns (status: FrameStatus, length: nat)
    requires capacity <= payload.Length
    modifies payload
    ensures status == InvalidLength <==> !LengthFits(encoded)
    ensures status == BufferTooSmall <==> LengthFits(encoded) && capacity < |encoded| - 3
    ensures status == CrcFailure <==> LengthFits(encoded) && capacity >= |encoded| - 3 && !Intact(encoded)
    ensures status == Ok ==> length == |encoded| - 3 && payload[..length] == encoded[1..1 + length]
    ensures status != Ok ==> payload[..] == old(payload[..])
  {
    hide FeedAll, BitsOf, Joined, Intact, Declared;
    length := 0;
    if |encoded| < HEADER_SIZE + CRC_SIZE {
      return InvalidLength, 0;
    }
    var declared := Declared(encoded[0]);
    if declared > MAX_PAYLOAD {
      return InvalidLength, 0;
    }
    var required := HEADER_SIZE + declared + CRC_SIZE;
    if |encoded| != required {
      return InvalidLength, 0;
    }
    if capacity < declared {
      return BufferTooSmall, 0;
    }
    var expected := CrcOf(encoded[..HEADER_SIZE + declared]);
    var received := Received(encoded[required - 2], encoded[required - 1]);
    IntactExactly(encoded);
    if received != expected {
      return CrcFailure, 0;
    }
    CopyInto(encoded[HEADER_SIZE..HEADER_SIZE + declared], payload, 0);
    assert payload[..declared] == encoded[1..1 + declared];
    return Ok, declared;
  }

  method Received(high: Byte, low: Byte) returns (crc: Word)
    ensures crc == Joined(high, low)
  {
    crc := ((high as Word) << 8) | (low as Word);
  }

  /** Comparing the stored CRC is the same as running the register over everything. */
  lemma IntactExactly(encoded: seq<Byte>)
    requires |encoded| >= 2
    ensures var n := |encoded| - 2;
      Intact(encoded) <==> FeedAll(PRESET, BitsOf(encoded[..n])) == Joined(encoded[n], encoded[n + 1])
  {
    hide FeedAll, Joined;
    var n := |encoded| - 2;
    var tail := [encoded[n], encoded[n + 1]];
    assert encoded == encoded[..n] + tail;
    BitsOfConcat(encoded[..n], tail);
    hide BitsOf;
    FeedConcat(PRESET, BitsOf(encoded[..n]), BitsOf(tail));
    OnlyOwnContents(FeedAll(PRESET, BitsOf(encoded[..n])), encoded[n], encoded[n + 1]);
  }

  // ---------------------------------------------------------------- building and parsing are inverse

  /** What `FrameParse` accepts. */
  predicate Accepted(encoded: seq<Byte>, capacity: nat) {
    LengthFits(encoded) && capacity >= |encoded| - 3 && Intact(encoded)
  }

  lemma FrameShape(payload: seq<Byte>)
    requires Framable(payload)
    ensures LengthFits(FrameOf(payload)) && FrameOf(payload)[1..1 + |payload|] == payload
  {
    hide Check, LengthByte, Declared;
    DeclaredLength(|payload|);
  }

  lemma FrameIsIntact(payload: seq<Byte>)
    requires Framable(payload)
    ensures LengthFits(FrameOf(payload)) && Intact(FrameOf(payload)) && FrameOf(payload)[1..1 + |payload|] == payload
  {
    FrameShape(payload);
    hide FeedAll, BitsOf, Joined, Hi, Lo, Intact, Protected, LengthFits;
    var frame, data := FrameOf(payload), Protected(payload);
    assert frame[..|frame| - 2] == data;
    IntactExactly(frame);
    JoinsParts(FeedAll(PRESET, BitsOf(data)));
  }

  /** The parser accepts exactly the frames the builder makes, and returns the payload they were built from. */
  lemma ParsesExactly(encoded: seq<Byte>, capacity: nat)
    ensures Accepted(encoded, capacity) <==>
      exists payload: seq<Byte> :: Framable(payload) && |payload| <= capacity && encoded == FrameOf(payload)
    ensures Accepted(encoded, capacity) ==> Framable(encoded[1..|encoded| - 2]) && encoded == FrameOf(encoded[1..|encoded| - 2])
  {
    hide FeedAll, BitsOf, Joined, Hi, Lo, Intact, LengthByte, Declared;
    if Accepted(encoded, capacity) {
      LengthDeclared(encoded[0]);
      var payload := encoded[1..|encoded| - 2];
      IntactExactly(encoded);
      assert Protected(payload) == encoded[..|encoded| - 2];
      PartsJoined(encoded[|encoded| - 2], encoded[|encoded| - 1]);
      assert encoded == FrameOf(payload);
    }
    forall payload: seq<Byte> | Framable(payload) && |payload| <= capacity && encoded == FrameOf(payload)
      ensures Accepted(encoded, capacity)
    {
      FrameIsIntact(payload);
    }
  }

  // ---------------------------------------------------------------- transmission errors

  /** The flipped bits between two byte strings of one length. */
  function Flips(sent: seq<Byte>, received: seq<Byte>): seq<bool>
    requires |sent| == |received|
  {
    Xor(BitsOf(sent), BitsOf(received))
  }

  lemma TwoIntact(sent: seq<Byte>, received: seq<Byte>)
    requires |sent| == |received| && Intact(sent) && Intact(received)
    ensures FeedAll(0, Flips(sent, received)) == 0
  {
    hide FeedAll, BitsOf, Add;
    FeedAllAdd(PRESET, PRESET, BitsOf(sent), BitsOf(received));
    AddZero(PRESET);
    AddZero(0);
  }

  /** Any flipped bits confined to 16 consecutive ones are noticed, wherever they fall. */
  lemma BurstsAreNoticed(payload: seq<Byte>, received: seq<Byte>, lo: nat, capacity: nat)
    requires Framable(payload) && |received| == |payload| + 3 && Burst(Flips(FrameOf(payload), received), lo)
    ensures !Accepted(received, capacity)
  {
    FrameIsIntact(payload);
    hide Framable, FrameOf, Burst, FeedAll, Intact;
    BurstIsSeen(Flips(FrameOf(payload), received), lo);
    if Intact(received) {
      TwoIntact(FrameOf(payload), received);
    }
  }

  /** Any odd number of flipped bits is noticed. */
  lemma OddErrorsAreNoticed(payload: seq<Byte>, received: seq<Byte>, capacity: nat)
    requires Framable(payload) && |received| == |payload| + 3 && OddCount(Flips(FrameOf(payload), received))
    ensures !Accepted(received, capacity)
  {
    FrameIsIntact(payload);
    hide Framable, FrameOf, OddCount, FeedAll, Intact;
    OddIsSeen(Flips(FrameOf(payload), received));
    if Intact(received) {
      TwoIntact(FrameOf(payload), received);
    }
  }
}
