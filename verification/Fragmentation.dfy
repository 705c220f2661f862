/**
 Countdown fragmentation of src/framing/fragmentation.c: a packet cut into at most
 128 fragments of 63 or 127 bytes, each led by one byte that says whether it starts
 a packet and how many fragments follow.
 */
module Fragmentation {
  import opened Numbers
  import opened Bits
  import opened Octets

  const MAX_COUNT: nat := 128

  datatype FragmentStatus = FragmentOk | InvalidMtu | FrameTooSmall

  predicate ValidClass(payloadClass: nat) {
    payloadClass == 64 || payloadClass == 128
  }

  /** Data bytes of one fragment. */
  function Room(payloadClass: nat): nat
    requires ValidClass(payloadClass)
  {
    if payloadClass == 64 then 63 else 127
  }

  /** Where fragment i starts in its packet. */
  function Offset(payloadClass: nat, i: nat): nat
    requires ValidClass(payloadClass)
  {
    if payloadClass == 64 then 63 * i else 127 * i
  }

  function FragmentCount(length: nat, payloadClass: nat): nat {
    if length == 0 || !ValidClass(payloadClass) then 0 else (length + Room(payloadClass) - 1) / Room(payloadClass)
  }

  /** The count is the number of pieces needed: one fewer does not hold the packet. */
  lemma CountCovers(length: nat, payloadClass: nat)
    requires ValidClass(payloadClass) && length > 0
    ensures var n := FragmentCount(length, payloadClass); n > 0 && Offset(payloadClass, n - 1) < length <= Offset(payloadClass, n)
  {}

  /** A packet the link accepts never needs more than 128 fragments. */
  lemma CountBounded(length: nat, payloadClass: nat, mtu: nat)
    requires ValidClass(payloadClass) && 0 < length <= mtu && mtu <= MAX_COUNT * Room(payloadClass)
    ensures 1 <= FragmentCount(length, payloadClass) <= MAX_COUNT
  {}

  // ---------------------------------------------------------------- header byte

  function HeaderByte(continuation: bool, remaining: nat): Byte
    requires remaining < 128
  {
    if continuation then (remaining as Byte) | 0x80 else remaining as Byte
  }

  predicate Continues(header: Byte) {
    header & 0x80 != 0
  }

  function Remaining(header: Byte): (n: nat)
    ensures n < 128
  {
    Low(header);
    (header & 0x7f) as nat
  }

  lemma Low(header: Byte)
    ensures (header & 0x7f) < 128
  {}

  lemma HeaderRoundTrip(continuation: bool, remaining: nat)
    requires remaining < 128
    ensures Continues(HeaderByte(continuation, remaining)) == continuation
    ensures Remaining(HeaderByte(continuation, remaining)) == remaining
  {
    var b := remaining as Byte;
    SevenBits(b);
    SmallOctet(remaining);
    OctetValue(remaining);
    if continuation {
      assert HeaderByte(continuation, remaining) == b | 0x80;
    }
  }

  lemma SevenBits(b: Byte)
    ensures b < 128 ==> b & 0x80 == 0 && b & 0x7f == b && (b | 0x80) & 0x80 == 0x80 && (b | 0x80) & 0x7f == b
  {}

  // ---------------------------------------------------------------- building

  /** The packet bytes carried by fragment i. */
  function Piece(packet: seq<Byte>, payloadClass: nat, i: nat): seq<Byte>
    requires ValidClass(payloadClass) && i < FragmentCount(|packet|, payloadClass)
  {
    packet[Offset(payloadClass, i)..Min(|packet|, Offset(payloadClass, i + 1))]
  }

  predicate Sendable(packet: seq<Byte>, payloadClass: nat) {
    ValidClass(payloadClass) && 1 <= FragmentCount(|packet|, payloadClass) <= MAX_COUNT
  }

  /** Fragment i of a packet as it goes on the air. */
  function Fragment(packet: seq<Byte>, payloadClass: nat, i: nat): seq<Byte>
    requires Sendable(packet, payloadClass) && i < FragmentCount(|packet|, payloadClass)
  {
    [HeaderByte(i != 0, FragmentCount(|packet|, payloadClass) - i - 1)] + Piece(packet, payloadClass, i)
  }

  lemma FragmentParts(packet: seq<Byte>, payloadClass: nat, index: nat)
    requires Sendable(packet, payloadClass) && index < FragmentCount(|packet|, payloadClass)
    ensures var offset := Offset(payloadClass, index); var left := |packet| - offset;
      && left > 0 && ValidClass(payloadClass)
      && Fragment(packet, payloadClass, index)
         == [HeaderByte(index != 0, FragmentCount(|packet|, payloadClass) - index - 1)]
            + packet[offset..offset + if left > Room(payloadClass) then Room(payloadClass) else left]
  {
    PieceInside(|packet|, payloadClass, index);
    hide HeaderByte, Offset, FragmentCount;
  }

  method FragmentBuild(packet: seq<Byte>, payloadClass: nat, index: nat, frame: array<Byte>, capacity: nat)
    returns (status: FragmentStatus, length: nat)
    requires capacity <= frame.Length
    modifies frame
    ensures status == InvalidMtu <==> !Sendable(packet, payloadClass) || index >= FragmentCount(|packet|, payloadClass)
    ensures status != InvalidMtu ==> (status == FrameTooSmall <==> capacity < |Fragment(packet, payloadClass, index)|)
    ensures status == FragmentOk ==> length == |Fragment(packet, payloadClass, index)| <= payloadClass
    ensures status == FragmentOk ==> frame[..length] == Fragment(packet, payloadClass, index)
    ensures status != FragmentOk ==> frame[..] == old(frame[..])
  {
    length := 0;
    var count := FragmentCount(|packet|, payloadClass);
    if count == 0 || count > MAX_COUNT || index >= count {
      return InvalidMtu, 0;
    }
    var offset := Offset(payloadClass, index);
    FragmentParts(packet, payloadClass, index);
    hide Fragment, HeaderByte, Offset, FragmentCount, Sendable;
    var dataLength := |packet| - offset;
    if dataLength > Room(payloadClass) {
      dataLength := Room(payloadClass);
    }
    if capacity < dataLength + 1 {
      return FrameTooSmall, 0;
    }
    var header := BuildHeader(index, count);
    WriteFrame(header, packet[offset..offset + dataLength], frame);
    return FragmentOk, dataLength + 1;
  }

  method WriteFrame(header: Byte, data: seq<Byte>, frame: array<Byte>)
    requires |data| + 1 <= frame.Length
    modifies frame
    ensures frame[..|data| + 1] == [header] + data
  {
    frame[0] := header;
    CopyInto(data, frame, 1);
  }

  method BuildHeader(index: nat, count: nat) returns (header: Byte)
    requires index < count <= MAX_COUNT
    ensures header == HeaderByte(index != 0, count - index - 1)
  {
    var remaining := count - index - 1;
    header := remaining as Byte;
    if index != 0 {
      header := header | 0x80;
    }
  }

  lemma PieceInside(length: nat, payloadClass: nat, i: nat)
    requires ValidClass(payloadClass) && i < FragmentCount(length, payloadClass)
    ensures Offset(payloadClass, i) < length && Offset(payloadClass, i + 1) == Offset(payloadClass, i) + Room(payloadClass)
    ensures i < FragmentCount(length, payloadClass) - 1 ==> Offset(payloadClass, i + 1) < length
    ensures i == FragmentCount(length, payloadClass) - 1 ==> length <= Offset(payloadClass, i + 1)
  {}

  // ---------------------------------------------------------------- pieces make the packet

  /** The first n pieces in order. */
  function Joined(packet: seq<Byte>, payloadClass: nat, n: nat): seq<Byte>
    requires ValidClass(payloadClass) && n <= FragmentCount(|packet|, payloadClass)
  {
    if n == 0 then [] else Joined(packet, payloadClass, n - 1) + Piece(packet, payloadClass, n - 1)
  }

  lemma {:induction false} JoinedPrefix(packet: seq<Byte>, payloadClass: nat, n: nat)
    requires ValidClass(payloadClass) && n <= FragmentCount(|packet|, payloadClass)
    ensures Joined(packet, payloadClass, n) == packet[..Min(|packet|, Offset(payloadClass, n))]
  {
    if n > 0 {
      JoinedPrefix(packet, payloadClass, n - 1);
      PieceInside(|packet|, payloadClass, n - 1);
      if n > 1 {
        PieceInside(|packet|, payloadClass, n - 2);
      }
    }
  }

  /** All pieces together are the packet: no byte lost, none sent twice. */
  lemma PiecesMakePacket(packet: seq<Byte>, payloadClass: nat)
    requires ValidClass(payloadClass)
    ensures Joined(packet, payloadClass, FragmentCount(|packet|, payloadClass)) == packet
  {
    var n := FragmentCount(|packet|, payloadClass);
    JoinedPrefix(packet, payloadClass, n);
    if n > 0 {
      CountCovers(|packet|, payloadClass);
    }
  }
}
