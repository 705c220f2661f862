/**
 KISS byte stuffing of src/platform/kiss.c, sections 2 and 3 of Chepponis and Karn,
 "The KISS TNC", 1987. `StreamRoundTrip` joins encoder and parser over whole streams.
 */
module Kiss {
  import opened Limits
  import opened Bits

  const FEND: Byte := 0xc0
  const FESC: Byte := 0xdb
  const TFEND: Byte := 0xdc
  const TFESC: Byte := 0xdd
  const STORAGE: nat := LINK_MAX_MTU + 1
  const MAX_ENCODED: nat := 2 * LINK_MAX_MTU + 4

  datatype KissFrame = KissFrame(port: Byte, command: Byte, data: seq<Byte>)

  datatype Reported = Nothing | Complete(frame: KissFrame)

  datatype Parser = Parser(active: bool, escaped: bool, rejected: bool, bytes: seq<Byte>)

  /** After a FEND. */
  const FRESH: Parser := Parser(true, false, false, [])

  function Take(p: Parser, b: Byte): Parser {
    if |p.bytes| >= STORAGE then p.(rejected := true) else p.(bytes := p.bytes + [b])
  }

  /** The first byte carries port and command. */
  function HeaderSplit(header: Byte, data: seq<Byte>): KissFrame {
    KissFrame(header >> 4, header & 0x0f, data)
  }

  /** One byte of the stream. */
  function Fed(p: Parser, b: Byte): (Parser, Reported) {
    if b == FEND then
      (FRESH, if p.active && !p.rejected && |p.bytes| > 0
              then Complete(HeaderSplit(p.bytes[0], p.bytes[1..])) else Nothing)
    else if !p.active || p.rejected then (p, Nothing)
    else if p.escaped then
      var q := p.(escaped := false);
      (if b == TFEND then Take(q, FEND) else if b == TFESC then Take(q, FESC) else q.(rejected := true), Nothing)
    else if b == FESC then (p.(escaped := true), Nothing)
    else (Take(p, b), Nothing)
  }

  /** Only port-zero data frames with at least one byte are packets. */
  function PacketOf(r: Reported): seq<seq<Byte>> {
    if r.Complete? && r.frame.port == 0 && r.frame.command == 0 && |r.frame.data| > 0 then [r.frame.data] else []
  }

  class KissParser {
    const frame: array<Byte>
    var length: nat
    var active: bool
    var escaped: bool
    var rejected: bool

    ghost predicate Valid()
      reads this
    {
      frame.Length == STORAGE && length <= STORAGE
    }

    ghost function State(): Parser
      reads this, frame
      requires Valid()
    {
      Parser(active, escaped, rejected, frame[..length])
    }

    constructor ()
      ensures Valid() && State() == Parser(false, false, false, []) && fresh(frame)
    {
      frame := new Byte[STORAGE];
      length, active, escaped, rejected := 0, false, false, false;
    }

    method PushFrame(input: Byte) returns (reported: Reported)
      requires Valid()
      modifies this, frame
      ensures Valid() && (State(), reported) == Fed(old(State()), input)
    {
      reported := Nothing;
      if input == FEND {
        if active && !rejected && length > 0 {
          reported := Complete(HeaderSplit(frame[0], frame[1..length]));
          assert frame[..length][1..] == frame[1..length];
        }
        active, escaped, rejected, length := true, false, false, 0;
        assert frame[..length] == [];
        return;
      }
      if !active || rejected {
        return;
      }
      var b := input;
      if escaped {
        escaped := false;
        if b == TFEND {
          b := FEND;
        } else if b == TFESC {
          b := FESC;
        } else {
          rejected := true;
          return;
        }
      } else if b == FESC {
        escaped := true;
        return;
      }
      if length >= frame.Length {
        rejected := true;
        return;
      }
      ghost var before := frame[..length];
      frame[length] := b;
      length := length + 1;
      assert frame[..length] == before + [b];
    }

    method Push(input: Byte) returns (packets: seq<seq<Byte>>)
      requires Valid()
      modifies this, frame
      ensures Valid() && State() == Fed(old(State()), input).0 && packets == PacketOf(Fed(old(State()), input).1)
    {
      hide Fed;
      var reported := PushFrame(input);
      if !reported.Complete? || reported.frame.port != 0 || reported.frame.command != 0 || |reported.frame.data| == 0 {
        return [];
      }
      return [reported.frame.data];
    }
  }

  // ---------------------------------------------------------------- encoder

  function Stuffed(b: Byte): seq<Byte> {
    if b == FEND then [FESC, TFEND] else if b == FESC then [FESC, TFESC] else [b]
  }

  function Escaped(packet: seq<Byte>): (r: seq<Byte>)
    ensures |packet| <= |r| <= 2 * |packet|
  {
    if packet == [] then [] else Escaped(packet[..|packet| - 1]) + Stuffed(packet[|packet| - 1])
  }

  function Encoding(packet: seq<Byte>): seq<Byte> {
    [FEND, 0] + Escaped(packet) + [FEND]
  }

  predicate Encodable(packet: seq<Byte>) {
    0 < |packet| <= LINK_MAX_MTU
  }

  lemma EscapedGrows(packet: seq<Byte>, n: nat)
    requires n < |packet|
    ensures Escaped(packet[..n + 1]) == Escaped(packet[..n]) + Stuffed(packet[n])
  {
    assert packet[..n + 1][..n] == packet[..n];
  }

  lemma {:induction false} EscapedPrefix(packet: seq<Byte>, n: nat)
    requires n <= |packet|
    ensures |Escaped(packet[..n])| + (|packet| - n) <= |Escaped(packet)|
    decreases |packet| - n
  {
    if n == |packet| {
      assert packet[..n] == packet;
    } else {
      EscapedGrows(packet, n);
      EscapedPrefix(packet, n + 1);
    }
  }

  /** The encoding up to the first n packet bytes. */
  function Begun(packet: seq<Byte>, n: nat): seq<Byte>
    requires n <= |packet|
  {
    [FEND, 0] + Escaped(packet[..n])
  }

  lemma BegunNext(packet: seq<Byte>, n: nat)
    requires n < |packet|
    ensures Begun(packet, n + 1) == Begun(packet, n) + Stuffed(packet[n]) && |Begun(packet, n + 1)| + 1 <= |Encoding(packet)|
  {
    hide Stuffed, Escaped;
    EscapedGrows(packet, n);
    EscapedPrefix(packet, n + 1);
  }

  lemma BegunEnds(packet: seq<Byte>)
    ensures Begun(packet, 0) == [FEND, 0] && Encoding(packet) == Begun(packet, |packet|) + [FEND]
  {
    hide Stuffed;
    assert packet[..|packet|] == packet;
  }

  /** The encoder succeeds exactly when the packet is legal and its encoding fits. */
  method KissEncode(packet: seq<Byte>, encoded: array<Byte>, capacity: nat) returns (ok: bool, length: nat)
    requires capacity <= encoded.Length
    modifies encoded
    ensures ok <==> Encodable(packet) && |Encoding(packet)| <= capacity
    ensures ok ==> length == |Encoding(packet)| && encoded[..length] == Encoding(packet)
  {
    ShortestEncoding(packet);
    BegunEnds(packet);
    hide Stuffed, Escaped, Encoding, Begun;
    length := 0;
    if |packet| == 0 || |packet| > LINK_MAX_MTU || capacity < 3 {
      return false, 0;
    }
    encoded[0], encoded[1] := FEND, 0;
    var output := 2;
    for input := 0 to |packet|
      invariant 2 <= output <= capacity && encoded[..output] == Begun(packet, input)
    {
      BegunNext(packet, input);
      var fits;
      fits, output := PutStuffed(packet[input], encoded, output, capacity);
      if !fits {
        return false, 0;
      }
    }
    if output >= capacity {
      return false, 0;
    }
    encoded[output] := FEND;
    return true, output + 1;
  }

  lemma ShortestEncoding(packet: seq<Byte>)
    ensures |Encoding(packet)| >= 3
  {}

  method PutStuffed(b: Byte, encoded: array<Byte>, at: nat, capacity: nat) returns (fits: bool, next: nat)
    requires at <= capacity <= encoded.Length
    modifies encoded
    ensures fits <==> at + |Stuffed(b)| <= capacity
    ensures fits ==> next == at + |Stuffed(b)| && encoded[..next] == old(encoded[..at]) + Stuffed(b)
  {
    next := at;
    if b == FEND || b == FESC {
      if at + 2 > capacity {
        return false, at;
      }
      encoded[at] := FESC;
      encoded[at + 1] := if b == FEND then TFEND else TFESC;
      return true, at + 2;
    }
    if at + 1 > capacity {
      return false, at;
    }
    encoded[at] := b;
    return true, at + 1;
  }

  /** The storage reserved for an encoding always suffices. */
  lemma StorageSuffices(packet: seq<Byte>)
    requires Encodable(packet)
    ensures |Encoding(packet)| <= MAX_ENCODED
  {}

  // ---------------------------------------------------------------- streams

  function After(p: Parser, bytes: seq<Byte>): Parser {
    if bytes == [] then p else Fed(After(p, bytes[..|bytes| - 1]), bytes[|bytes| - 1]).0
  }

  /** The packets reported while the bytes are fed, in order. */
  function Packets(p: Parser, bytes: seq<Byte>): seq<seq<Byte>> {
    if bytes == [] then []
    else
      var n := |bytes| - 1;
      Packets(p, bytes[..n]) + PacketOf(Fed(After(p, bytes[..n]), bytes[n]).1)
  }

  lemma FedOne(p: Parser, bytes: seq<Byte>, b: Byte)
    ensures After(p, bytes + [b]) == Fed(After(p, bytes), b).0
    ensures Packets(p, bytes + [b]) == Packets(p, bytes) + PacketOf(Fed(After(p, bytes), b).1)
  {
    hide Fed;
    assert (bytes + [b])[..|bytes|] == bytes;
  }

  lemma FedNone(p: Parser)
    ensures After(p, []) == p && Packets(p, []) == []
  {}

  lemma {:induction false} FedTwice(p: Parser, first: seq<Byte>, second: seq<Byte>)
    ensures After(p, first + second) == After(After(p, first), second)
    ensures Packets(p, first + second) == Packets(p, first) + Packets(After(p, first), second)
    decreases |second|
  {
    hide Fed, After, Packets, PacketOf;
    if second == [] {
      assert first + second == first;
      FedNone(After(p, first));
    } else {
      var s, b := second[..|second| - 1], second[|second| - 1];
      FedTwice(p, first, s);
      assert first + second == (first + s) + [b];
      FedOne(p, first + s, b);
      assert second == s + [b];
      FedOne(After(p, first), s, b);
    }
  }

  lemma FedSingle(p: Parser, b: Byte)
    ensures After(p, [b]) == Fed(p, b).0 && Packets(p, [b]) == PacketOf(Fed(p, b).1)
  {
    hide Fed, PacketOf;
    FedOne(p, [], b);
    assert [] + [b] == [b];
  }

  /** Stuffing is undone byte by byte, silently. */
  lemma StuffedByte(p: Parser, b: Byte)
    requires p.active && !p.escaped && !p.rejected && |p.bytes| < STORAGE
    ensures After(p, Stuffed(b)) == p.(bytes := p.bytes + [b]) && Packets(p, Stuffed(b)) == []
  {
    var s := Stuffed(b);
    FedSingle(p, s[0]);
    if |s| == 2 {
      FedOne(p, [s[0]], s[1]);
      assert [s[0]] + [s[1]] == s;
    } else {
      assert s == [s[0]];
    }
    hide After, Packets;
  }

  /** Command byte and the first n stuffed bytes. */
  function Opening(packet: seq<Byte>, n: nat): seq<Byte>
    requires n <= |packet|
  {
    [0] + Escaped(packet[..n])
  }

  /** The parser has collected exactly the command byte and the first n packet bytes. */
  predicate Collected(packet: seq<Byte>, n: nat)
    requires n <= |packet|
  {
    && After(FRESH, Opening(packet, n)) == Parser(true, false, false, [0] + packet[..n])
    && Packets(FRESH, Opening(packet, n)) == []
  }

  lemma CollectedNone(packet: seq<Byte>)
    ensures Collected(packet, 0)
  {
    FedSingle(FRESH, 0);
    hide After, Packets;
    assert Opening(packet, 0) == [0];
  }

  lemma CollectedNext(packet: seq<Byte>, n: nat)
    requires n < |packet| <= LINK_MAX_MTU && Collected(packet, n)
    ensures Collected(packet, n + 1)
  {
    hide Fed, Stuffed, After, Packets, Escaped;
    EscapedGrows(packet, n);
    assert Opening(packet, n + 1) == Opening(packet, n) + Stuffed(packet[n]);
    FedTwice(FRESH, Opening(packet, n), Stuffed(packet[n]));
    StuffedByte(After(FRESH, Opening(packet, n)), packet[n]);
    assert [0] + packet[..n] + [packet[n]] == [0] + packet[..n + 1];
  }

  lemma {:induction false} CollectedAll(packet: seq<Byte>, n: nat)
    requires n <= |packet| <= LINK_MAX_MTU
    ensures Collected(packet, n)
  {
    hide Collected;
    if n == 0 {
      CollectedNone(packet);
    } else {
      CollectedAll(packet, n - 1);
      CollectedNext(packet, n - 1);
    }
  }

  lemma EncodingParts(packet: seq<Byte>)
    ensures Encoding(packet) == [FEND] + (Opening(packet, |packet|) + [FEND])
  {
    hide Escaped;
    assert packet[..|packet|] == packet;
  }

  lemma FendRenews(p: Parser)
    ensures Fed(p, FEND).0 == FRESH
  {}

  /** The command byte, the stuffed packet and the closing FEND, fed to a fresh parser. */
  lemma OneBody(packet: seq<Byte>)
    requires Encodable(packet)
    ensures After(FRESH, Opening(packet, |packet|) + [FEND]) == FRESH
    ensures Packets(FRESH, Opening(packet, |packet|) + [FEND]) == [packet]
  {
    hide Fed, After, Packets, Escaped, PacketOf, Opening;
    CollectedAll(packet, |packet|);
    assert packet[..|packet|] == packet;
    FedOne(FRESH, Opening(packet, |packet|), FEND);
    FendRenews(After(FRESH, Opening(packet, |packet|)));
    ClosingFend(packet);
  }

  /** Up to the closing FEND only what the opening one flushes is reported. */
  lemma SilentBody(p: Parser, packet: seq<Byte>)
    requires Encodable(packet)
    ensures Packets(p, [FEND] + Opening(packet, |packet|)) == PacketOf(Fed(p, FEND).1)
  {
    hide Fed, After, Packets, Escaped, PacketOf, Opening;
    FedSingle(p, FEND);
    FendRenews(p);
    CollectedAll(packet, |packet|);
    FedTwice(p, [FEND], Opening(packet, |packet|));
  }

  /** From any state, an encoded packet is reported on its closing FEND, and nothing else after the opening one. */
  lemma OnePacket(p: Parser, packet: seq<Byte>)
    requires Encodable(packet)
    ensures var n := |Encoding(packet)| - 1;
      n >= 0 && Encoding(packet)[n] == FEND && Packets(p, Encoding(packet)[..n]) == PacketOf(Fed(p, FEND).1)
    ensures After(p, Encoding(packet)) == FRESH
    ensures Packets(p, Encoding(packet)) == PacketOf(Fed(p, FEND).1) + [packet]
  {
    hide Fed, After, Packets, Escaped, PacketOf, Opening, Encoding;
    EncodingParts(packet);
    FedSingle(p, FEND);
    FendRenews(p);
    OneBody(packet);
    FedTwice(p, [FEND], Opening(packet, |packet|) + [FEND]);
    SilentBody(p, packet);
    assert Encoding(packet)[..|Encoding(packet)| - 1] == [FEND] + Opening(packet, |packet|);
  }

  lemma ClosingFend(packet: seq<Byte>)
    requires |packet| > 0
    ensures PacketOf(Fed(Parser(true, false, false, [0] + packet), FEND).1) == [packet]
  {
    assert ([0] + packet)[1..] == packet;
    assert (0 as Byte) >> 4 == 0 && (0 as Byte) & 0x0f == 0;
  }

  function Encodings(packets: seq<seq<Byte>>): seq<Byte> {
    if packets == [] then [] else Encodings(packets[..|packets| - 1]) + Encoding(packets[|packets| - 1])
  }

  /**
   From any parser state the encodings of any packets, one after another, give exactly
   those packets in order, apart from what the very first FEND flushes.
   */
  lemma {:induction false} StreamRoundTrip(p: Parser, packets: seq<seq<Byte>>)
    requires forall i | 0 <= i < |packets| :: Encodable(packets[i])
    ensures packets != [] ==> After(p, Encodings(packets)) == FRESH
    ensures Packets(p, Encodings(packets)) == (if packets == [] then [] else PacketOf(Fed(p, FEND).1)) + packets
  {
    FedNone(p);
    hide Fed, Encoding, Encodable, After, Packets, PacketOf;
    if packets != [] {
      var n := |packets| - 1;
      var before := packets[..n];
      StreamRoundTrip(p, before);
      FedTwice(p, Encodings(before), Encoding(packets[n]));
      OnePacket(After(p, Encodings(before)), packets[n]);
      if n > 0 {
        FreshFlushesNothing();
      } else {
        assert Encodings(before) == [];
      }
      assert packets == before + [packets[n]];
    }
  }

  lemma FreshFlushesNothing()
    ensures PacketOf(Fed(FRESH, FEND).1) == []
  {}
}
