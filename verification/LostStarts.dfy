/**
 Fragments carry no packet number. This module says exactly when that matters: which
 losses let reassembly deliver a packet that nobody sent, and which cannot.
 */
module LostStarts {
  import opened Bits
  import opened Fragmentation
  import opened Reassembly
  import opened ReassemblyRuns
  import opened Transport

  // ---------------------------------------------------------------- the same frames with other contents

  predicate SameLengths(packets: seq<seq<Byte>>, others: seq<seq<Byte>>) {
    |others| == |packets| && forall k | 0 <= k < |packets| :: |others[k]| == |packets[k]|
  }

  /** What would have arrived, at the same times, had the packets held other bytes. */
  ghost function Refilled(c: Config, packets: seq<seq<Byte>>, others: seq<seq<Byte>>, run: seq<Arrival>, tags: seq<Tag>): (r: seq<Arrival>)
    requires Tagged(c, packets, run, tags) && SameLengths(packets, others)
    ensures |r| == |run|
  {
    seq(|run|, i requires 0 <= i < |run| => Arrival(Fragment(others[tags[i].packet], c.payloadClass, tags[i].index), run[i].now))
  }

  lemma RefilledTagged(c: Config, packets: seq<seq<Byte>>, others: seq<seq<Byte>>, run: seq<Arrival>, tags: seq<Tag>)
    requires Tagged(c, packets, run, tags) && SameLengths(packets, others)
    ensures Tagged(c, others, Refilled(c, packets, others, run, tags), tags)
  {
    hide Fragment, FragmentCount;
  }

  /** Headers and lengths do not depend on the contents. */
  lemma RefilledFrame(c: Config, packets: seq<seq<Byte>>, others: seq<seq<Byte>>, run: seq<Arrival>, tags: seq<Tag>, i: nat)
    requires Tagged(c, packets, run, tags) && SameLengths(packets, others) && i < |run|
    ensures var r := Refilled(c, packets, others, run, tags);
      run[i].frame != [] && r[i].frame != [] && Header(r[i]) == Header(run[i]) && |r[i].frame| == |run[i].frame| && r[i].now == run[i].now
  {
    PieceInside(|packets[tags[i].packet]|, c.payloadClass, tags[i].index);
    hide HeaderByte, FragmentCount, Offset;
  }

  lemma {:induction false} RefilledLength(c: Config, packets: seq<seq<Byte>>, others: seq<seq<Byte>>, run: seq<Arrival>, tags: seq<Tag>, s: nat, n: nat)
    requires Tagged(c, packets, run, tags) && SameLengths(packets, others) && s <= n <= |run|
    requires AllWellFormed(c, run) && AllWellFormed(c, Refilled(c, packets, others, run, tags))
    ensures |DataOf(Refilled(c, packets, others, run, tags), s, n)| == |DataOf(run, s, n)|
  {
    hide Tagged, Refilled, SameLengths;
    if s < n {
      RefilledLength(c, packets, others, run, tags, s, n - 1);
      RefilledFrame(c, packets, others, run, tags, n - 1);
    }
  }

  lemma RefilledChain(c: Config, packets: seq<seq<Byte>>, others: seq<seq<Byte>>, run: seq<Arrival>, tags: seq<Tag>, s: nat, n: nat)
    requires Tagged(c, packets, run, tags) && SameLengths(packets, others) && n <= |run|
    requires AllWellFormed(c, run) && AllWellFormed(c, Refilled(c, packets, others, run, tags)) && FullChain(c, run, s, n)
    ensures FullChain(c, Refilled(c, packets, others, run, tags), s, n)
  {
    hide Tagged, Refilled, SameLengths, DataOf, Continues, Remaining, Elapsed;
    var r := Refilled(c, packets, others, run, tags);
    RefilledLength(c, packets, others, run, tags, s, n);
    RefilledFrame(c, packets, others, run, tags, s);
    forall i | s < i < n
      ensures Header(r[i]) == Header(run[i]) && r[i].now == run[i].now
    {
      RefilledFrame(c, packets, others, run, tags, i);
    }
  }

  // ---------------------------------------------------------------- exactly when the delivered packet was sent

  /** With these contents the n-th push delivers one of the packets. */
  ghost predicate SentWith(c: Config, packets: seq<seq<Byte>>, others: seq<seq<Byte>>, run: seq<Arrival>, tags: seq<Tag>, n: nat)
    requires Tagged(c, packets, run, tags) && 0 < n <= |run| && SameLengths(packets, others)
  {
    var outcome := Reported(c, Refilled(c, packets, others, run, tags), n - 1);
    outcome.Complete? && outcome.packet in others
  }

  /** Whatever the packets hold, what the n-th push delivers is one of them. */
  ghost predicate AlwaysSent(c: Config, packets: seq<seq<Byte>>, run: seq<Arrival>, tags: seq<Tag>, n: nat)
    requires Tagged(c, packets, run, tags) && 0 < n <= |run|
  {
    forall others: seq<seq<Byte>> | SameLengths(packets, others) :: SentWith(c, packets, others, run, tags, n)
  }

  lemma RefilledFull(c: Config, packets: seq<seq<Byte>>, others: seq<seq<Byte>>, run: seq<Arrival>, tags: seq<Tag>, s: nat, n: nat)
    requires Tagged(c, packets, run, tags) && SameLengths(packets, others) && n <= |run|
    requires AllWellFormed(c, run) && FullChain(c, run, s, n)
    ensures var r := Refilled(c, packets, others, run, tags); Tagged(c, others, r, tags) && AllWellFormed(c, r) && FullChain(c, r, s, n)
  {
    RefilledTagged(c, packets, others, run, tags);
    hide Tagged, Refilled, SameLengths, AllWellFormed, Chain;
    TaggedWellFormed(c, others, Refilled(c, packets, others, run, tags), tags);
    RefilledChain(c, packets, others, run, tags, s, n);
  }

  /** What the refilled run delivers is the data of the same chain. */
  lemma RefilledDelivers(c: Config, packets: seq<seq<Byte>>, others: seq<seq<Byte>>, run: seq<Arrival>, tags: seq<Tag>, s: nat, n: nat)
    requires Tagged(c, packets, run, tags) && SameLengths(packets, others) && n <= |run|
    requires AllWellFormed(c, run) && FullChain(c, run, s, n)
    ensures var r := Refilled(c, packets, others, run, tags);
      Tagged(c, others, r, tags) && AllWellFormed(c, r) && FullChain(c, r, s, n) && s < n && Reported(c, r, n - 1) == Complete(DataOf(r, s, n))
  {
    RefilledFull(c, packets, others, run, tags, s, n);
    hide Tagged, Refilled, SameLengths, AllWellFormed, Chain, FullChain;
    ChainDelivers(c, Refilled(c, packets, others, run, tags), s, n);
  }

  lemma SentIs(c: Config, packets: seq<seq<Byte>>, others: seq<seq<Byte>>, run: seq<Arrival>, tags: seq<Tag>, n: nat, data: seq<Byte>)
    requires Tagged(c, packets, run, tags) && 0 < n <= |run| && SameLengths(packets, others)
    requires Reported(c, Refilled(c, packets, others, run, tags), n - 1) == Complete(data)
    ensures SentWith(c, packets, others, run, tags, n) <==> data in others
  {
    hide Tagged, Refilled, SameLengths, Reported;
  }

  lemma ChainFrames(c: Config, run: seq<Arrival>, s: nat, n: nat)
    requires n <= |run| && AllWellFormed(c, run) && FullChain(c, run, s, n)
    ensures s <= n && forall i | s <= i < n :: run[i].frame != []
  {}

  lemma OnePacketIsSent(c: Config, packets: seq<seq<Byte>>, others: seq<seq<Byte>>, run: seq<Arrival>, tags: seq<Tag>, s: nat, n: nat)
    requires Tagged(c, packets, run, tags) && AllWellFormed(c, run) && 0 < n <= |run| && FullChain(c, run, s, n)
    requires s < n <= |tags| && OnePacket(tags, s, n) && SameLengths(packets, others)
    ensures SentWith(c, packets, others, run, tags, n)
  {
    hide Refilled, OnePacket, FullChain, AllWellFormed, DataOf, Reported, SameLengths, SentWith, Tagged;
    var r := Refilled(c, packets, others, run, tags);
    RefilledDelivers(c, packets, others, run, tags, s, n);
    TagNames(c, others, r, tags, n - 1);
    FullChainData(c, others, r, tags, s, n - 1);
    assert AllWellFormed(c, r) && FullChain(c, r, s, n);
    ChainFrames(c, r, s, n);
    SentIs(c, packets, others, run, tags, n, DataOf(r, s, n));
  }

  lemma TagNames(c: Config, packets: seq<seq<Byte>>, run: seq<Arrival>, tags: seq<Tag>, i: nat)
    requires Tagged(c, packets, run, tags) && i < |run|
    ensures |tags| == |run| && tags[i].packet < |packets|
  {}

  /** Packet p holds zeros, every other packet ones. */
  function Marked(packets: seq<seq<Byte>>, p: nat): (r: seq<seq<Byte>>)
    ensures SameLengths(packets, r) && forall k, i | 0 <= k < |r| && 0 <= i < |r[k]| :: r[k][i] == if k == p then 0 else 1
  {
    seq(|packets|, k requires 0 <= k < |packets| => seq(|packets[k]|, i => if k == p then 0 as Byte else 1))
  }

  lemma {:induction false} DataHolds(run: seq<Arrival>, s: nat, n: nat, i: nat, b: Byte)
    requires s <= i < n <= |run| && (forall j | s <= j < n :: run[j].frame != []) && b in run[i].frame[1..]
    ensures b in DataOf(run, s, n)
  {
    if i < n - 1 {
      DataHolds(run, s, n - 1, i, b);
    }
  }

  /** A piece of a packet of equal bytes holds that byte. */
  lemma PieceHolds(packet: seq<Byte>, payloadClass: nat, i: nat, mark: Byte)
    requires Sendable(packet, payloadClass) && i < FragmentCount(|packet|, payloadClass)
    requires forall k | 0 <= k < |packet| :: packet[k] == mark
    ensures mark in Fragment(packet, payloadClass, i)[1..]
  {
    PieceInside(|packet|, payloadClass, i);
    hide HeaderByte, FragmentCount, Offset;
    var piece := Piece(packet, payloadClass, i);
    assert piece[0] == packet[Offset(payloadClass, i)];
    assert Fragment(packet, payloadClass, i)[1..] == piece;
  }

  /** Each marked frame shows which kind of packet it comes from. */
  lemma MarkedFrame(c: Config, packets: seq<seq<Byte>>, p: nat, run: seq<Arrival>, tags: seq<Tag>, i: nat)
    requires Tagged(c, packets, run, tags) && i < |run| && p < |packets|
    ensures var r := Refilled(c, packets, Marked(packets, p), run, tags);
      r[i].frame != [] && (if tags[i].packet == p then 0 else 1) in r[i].frame[1..]
  {
    var others := Marked(packets, p);
    RefilledTagged(c, packets, others, run, tags);
    hide Marked, Fragment, FragmentCount;
    PieceHolds(others[tags[i].packet], c.payloadClass, tags[i].index, if tags[i].packet == p then 0 else 1);
  }

  /** The data of a chain over two marked packets holds both marks. */
  lemma MixedData(c: Config, packets: seq<seq<Byte>>, run: seq<Arrival>, tags: seq<Tag>, s: nat, n: nat, j: nat)
    requires Tagged(c, packets, run, tags) && AllWellFormed(c, run) && n <= |run| && s <= j < n && tags[j].packet != tags[s].packet
    ensures tags[s].packet < |packets|
    ensures var r := Refilled(c, packets, Marked(packets, tags[s].packet), run, tags);
      AllWellFormed(c, r) && 0 in DataOf(r, s, n) && 1 in DataOf(r, s, n)
  {
    var p := tags[s].packet;
    assert p < |packets|;
    var r := Refilled(c, packets, Marked(packets, p), run, tags);
    RefilledTagged(c, packets, Marked(packets, p), run, tags);
    MarkedFrame(c, packets, p, run, tags, s);
    MarkedFrame(c, packets, p, run, tags, j);
    TaggedWellFormed(c, Marked(packets, p), r, tags);
    hide Tagged, Refilled, Marked;
    DataHolds(r, s, n, s, 0);
    DataHolds(r, s, n, j, 1);
  }

  lemma MixedIsNotSent(c: Config, packets: seq<seq<Byte>>, run: seq<Arrival>, tags: seq<Tag>, s: nat, n: nat, j: nat)
    requires Tagged(c, packets, run, tags) && AllWellFormed(c, run) && 0 < n <= |run| && FullChain(c, run, s, n)
    requires s <= j < n && tags[j].packet != tags[s].packet
    ensures !SentWith(c, packets, Marked(packets, tags[s].packet), run, tags, n)
  {
    hide Tagged, Refilled, AllWellFormed, Chain, FullChain, DataOf, Marked, Reported, SameLengths, SentWith;
    TagNames(c, packets, run, tags, s);
    var others := Marked(packets, tags[s].packet);
    RefilledDelivers(c, packets, others, run, tags, s, n);
    ChainFrames(c, Refilled(c, packets, others, run, tags), s, n);
    MixedData(c, packets, run, tags, s, n, j);
    var data := DataOf(Refilled(c, packets, others, run, tags), s, n);
    NotMarked(packets, tags[s].packet, data);
    SentIs(c, packets, others, run, tags, n, data);
  }

  /** A packet with both marks is none of the marked packets. */
  lemma NotMarked(packets: seq<seq<Byte>>, p: nat, data: seq<Byte>)
    requires 0 in data && 1 in data
    ensures data !in Marked(packets, p)
  {
    var x, y :| 0 <= x < |data| && 0 <= y < |data| && data[x] == 0 && data[y] == 1;
    forall k | 0 <= k < |Marked(packets, p)| ensures Marked(packets, p)[k] != data {
      assert |Marked(packets, p)[k]| == |data| ==> Marked(packets, p)[k][x] == Marked(packets, p)[k][y];
    }
  }

  /**
   For any losses, reorderings or repetitions of sent frames: a delivered packet is one
   that was sent, whatever the contents, if and only if its chain names one packet.
   */
  lemma DeliveredIsSentExactly(c: Config, packets: seq<seq<Byte>>, run: seq<Arrival>, tags: seq<Tag>, s: nat, n: nat)
    requires Tagged(c, packets, run, tags) && AllWellFormed(c, run) && n <= |run| && FullChain(c, run, s, n)
    ensures n > 0 && (AlwaysSent(c, packets, run, tags, n) <==> OnePacket(tags, s, n))
  {
    assert |tags| == |run|;
    ChainIsLong(c, run, s, n);
    hide Tagged, AllWellFormed, Chain, FullChain, SentWith, SameLengths, Marked;
    if OnePacket(tags, s, n) {
      forall others: seq<seq<Byte>> | SameLengths(packets, others) ensures SentWith(c, packets, others, run, tags, n) {
        OnePacketIsSent(c, packets, others, run, tags, s, n);
      }
    } else {
      var j :| s <= j < n && tags[j].packet != tags[s].packet;
      MixedIsNotSent(c, packets, run, tags, s, n, j);
    }
  }

  lemma ChainIsLong(c: Config, run: seq<Arrival>, s: nat, n: nat)
    requires AllWellFormed(c, run) && n <= |run| && FullChain(c, run, s, n)
    ensures s < n
  {}

  // ---------------------------------------------------------------- packets sent one after another

  predicate Earlier(a: Tag, b: Tag) {
    a.packet < b.packet || (a.packet == b.packet && a.index < b.index)
  }

  /** What is received is in the order of sending; any frames may be missing. */
  predicate Serial(tags: seq<Tag>) {
    forall i, j | 0 <= i < j < |tags| :: Earlier(tags[i], tags[j])
  }

  /**
   The start frame of a packet is lost, and the countdown of its first received
   fragment is one below that of the fragment received before, of an earlier packet:
   the guard that should stop it lets it pass.
   */
  predicate LostStartFits(c: Config, run: seq<Arrival>, tags: seq<Tag>, j: nat)
    requires 0 < j < |run| == |tags| && AllWellFormed(c, run)
  {
    && Tag(tags[j].packet, 0) !in tags && tags[j - 1].packet != tags[j].packet
    && Remaining(Header(run[j])) + 1 == Remaining(Header(run[j - 1]))
  }

  /** No lost start goes unnoticed among arrivals s .. n - 1. */
  predicate NoLostStartFits(c: Config, run: seq<Arrival>, tags: seq<Tag>, s: nat, n: nat)
    requires s < n <= |run| == |tags| && AllWellFormed(c, run)
  {
    forall j | s < j < n :: !LostStartFits(c, run, tags, j)
  }

  /** In a serial run a packet whose start is missing just before its first fragment is missing it altogether. */
  lemma StartIsMissing(tags: seq<Tag>, j: nat)
    requires Serial(tags) && 0 < j < |tags| && tags[j].index != 0 && tags[j - 1].packet != tags[j].packet
    ensures Tag(tags[j].packet, 0) !in tags
  {
    assert Earlier(tags[j - 1], tags[j]);
    forall i | 0 <= i < |tags| ensures tags[i] != Tag(tags[j].packet, 0) {
      if i < j - 1 {
        assert Earlier(tags[i], tags[j - 1]);
      } else if i > j {
        assert Earlier(tags[j], tags[i]);
      }
    }
  }

  /** Within a chain the packet changes exactly where a lost start fits. */
  lemma ChangesAreLostStarts(c: Config, packets: seq<seq<Byte>>, run: seq<Arrival>, tags: seq<Tag>, s: nat, n: nat, j: nat)
    requires Tagged(c, packets, run, tags) && Serial(tags) && AllWellFormed(c, run) && n <= |run| && Chain(c, run, s, n) && s < j < n
    ensures |run| == |tags| && (tags[j].packet != tags[j - 1].packet <==> LostStartFits(c, run, tags, j))
  {
    TaggedHeader(c, packets, run, tags, j);
    TagNames(c, packets, run, tags, j);
    CountsDown(c, run, s, n, j);
    hide Tagged, Serial, AllWellFormed, Chain, Continues, Remaining, FragmentCount, Piece;
    if tags[j].packet != tags[j - 1].packet {
      StartIsMissing(tags, j);
    }
  }

  lemma CountsDown(c: Config, run: seq<Arrival>, s: nat, n: nat, j: nat)
    requires AllWellFormed(c, run) && n <= |run| && Chain(c, run, s, n) && s < j < n
    ensures Continues(Header(run[j])) && Remaining(Header(run[j])) + 1 == Remaining(Header(run[j - 1]))
  {
    hide Continues, Remaining, Elapsed, DataOf;
  }

  predicate NoChange(tags: seq<Tag>, s: nat, n: nat)
    requires s < n <= |tags|
  {
    forall j | s < j < n :: tags[j].packet == tags[j - 1].packet
  }

  lemma {:induction false} NoChangeIsOnePacket(tags: seq<Tag>, s: nat, n: nat)
    requires s < n <= |tags|
    ensures NoChange(tags, s, n) <==> OnePacket(tags, s, n)
  {
    if s < n - 1 {
      NoChangeIsOnePacket(tags, s, n - 1);
      assert NoChange(tags, s, n) ==> tags[n - 1].packet == tags[n - 1 - 1].packet;
    }
  }

  lemma NoChangeIsNoLostStart(c: Config, packets: seq<seq<Byte>>, run: seq<Arrival>, tags: seq<Tag>, s: nat, n: nat)
    requires Tagged(c, packets, run, tags) && Serial(tags) && AllWellFormed(c, run) && n <= |run| && Chain(c, run, s, n) && s < n
    ensures |run| == |tags| && (NoChange(tags, s, n) <==> NoLostStartFits(c, run, tags, s, n))
  {
    assert |tags| == |run|;
    hide Tagged, Serial, AllWellFormed, Chain, LostStartFits;
    forall j | s < j < n ensures tags[j].packet != tags[j - 1].packet <==> LostStartFits(c, run, tags, j) {
      ChangesAreLostStarts(c, packets, run, tags, s, n, j);
    }
  }

  /**
   Packets sent one after another, any frames lost: a delivered packet is one that was
   sent, whatever the contents, if and only if no lost start fitted into its chain.
   */
  lemma SerialDeliveryExactly(c: Config, packets: seq<seq<Byte>>, run: seq<Arrival>, tags: seq<Tag>, s: nat, n: nat)
    requires Tagged(c, packets, run, tags) && Serial(tags) && AllWellFormed(c, run) && n <= |run| && FullChain(c, run, s, n)
    ensures s < n && |run| == |tags| && (AlwaysSent(c, packets, run, tags, n) <==> NoLostStartFits(c, run, tags, s, n))
  {
    assert |tags| == |run|;
    ChainIsLong(c, run, s, n);
    DeliveredIsSentExactly(c, packets, run, tags, s, n);
    hide Tagged, Serial, AllWellFormed, Chain, NoChange, OnePacket, NoLostStartFits, AlwaysSent;
    NoChangeIsNoLostStart(c, packets, run, tags, s, n);
    NoChangeIsOnePacket(tags, s, n);
  }

  /** Every packet delivered in the run is one that was sent, whatever the contents. */
  ghost predicate EveryDeliveryIsSent(c: Config, packets: seq<seq<Byte>>, run: seq<Arrival>, tags: seq<Tag>)
    requires Tagged(c, packets, run, tags)
  {
    forall n | 0 < n <= |run| && DeliversAt(c, run, n) :: AlwaysSent(c, packets, run, tags, n)
  }

  /** The push of arrival n - 1 delivers a packet. */
  predicate DeliversAt(c: Config, run: seq<Arrival>, n: nat)
    requires 0 < n <= |run|
  {
    Reported(c, run, n - 1).Complete?
  }

  lemma TaggedLength(c: Config, packets: seq<seq<Byte>>, run: seq<Arrival>, tags: seq<Tag>)
    requires Tagged(c, packets, run, tags)
    ensures |tags| == |run|
  {}

  /** The whole run: only packets that were sent are delivered if and only if no lost start fits into a full chain. */
  lemma SerialRunExactly(c: Config, packets: seq<seq<Byte>>, run: seq<Arrival>, tags: seq<Tag>)
    requires Tagged(c, packets, run, tags) && Serial(tags)
    ensures |run| == |tags| && AllWellFormed(c, run)
    ensures EveryDeliveryIsSent(c, packets, run, tags) <==>
      forall s: nat, n: nat | s < n <= |run| && FullChain(c, run, s, n) :: NoLostStartFits(c, run, tags, s, n)
  {
    hide Tagged, Serial, AllWellFormed, Chain, FullChain, NoLostStartFits, AlwaysSent, Reported;
    TaggedLength(c, packets, run, tags);
    TaggedWellFormed(c, packets, run, tags);
    forall s: nat, n: nat | s < n <= |run| && FullChain(c, run, s, n)
      ensures DeliversAt(c, run, n) && (AlwaysSent(c, packets, run, tags, n) <==> NoLostStartFits(c, run, tags, s, n))
    {
      ChainDelivers(c, run, s, n);
      SerialDeliveryExactly(c, packets, run, tags, s, n);
    }
    forall n | 0 < n <= |run| && DeliversAt(c, run, n) ensures exists s: nat :: s < n && FullChain(c, run, s, n) {
      DeliversExactly(c, run, n - 1);
      var s: nat :| FullChain(c, run, s, n);
      ChainIsLong(c, run, s, n);
    }
  }

  // ---------------------------------------------------------------- a lost start frame

  /**
   Without packet numbers a lost start frame goes unnoticed: the first fragment of one
   packet and the last of the next are delivered together as a packet nobody sent.
   */
  lemma LostStartMixesPackets(c: Config, a: seq<Byte>, b: seq<Byte>, now: nat)
    requires ValidConfig(c) && FragmentCount(|a|, c.payloadClass) == 2 && FragmentCount(|b|, c.payloadClass) == 2
    ensures Sendable(a, c.payloadClass) && Sendable(b, c.payloadClass)
    ensures var run := [Arrival(Fragment(a, c.payloadClass, 0), now), Arrival(Fragment(b, c.payloadClass, 1), now)];
      Reported(c, run, 1) == Complete(Piece(a, c.payloadClass, 0) + Piece(b, c.payloadClass, 1))
  {
    FragmentHeader(a, c.payloadClass, 0);
    FragmentHeader(b, c.payloadClass, 1);
    var run := [Arrival(Fragment(a, c.payloadClass, 0), now), Arrival(Fragment(b, c.payloadClass, 1), now)];
    assert c.mtu >= 500;
    hide Fragment, Continues, Remaining, FragmentCount, Piece, Offset;
    assert After(c, run, 0) == CLEARED;
    assert After(c, run, 1) == Assembly(true, Piece(a, c.payloadClass, 0), 1, now) by {
      assert [] + run[0].frame[1..] == Piece(a, c.payloadClass, 0);
    }
    assert Elapsed(now, now) == 0;
    PushInside(c, After(c, run, 1), run[1]);
  }

  /** Two packets of 64 bytes for which that happens. */
  lemma MixedPacketExists(c: Config, now: nat)
    requires ValidConfig(c) && c.payloadClass == 64
    ensures exists a: seq<Byte>, b: seq<Byte> ::
      && Sendable(a, 64) && Sendable(b, 64) && FragmentCount(|a|, 64) == 2 && FragmentCount(|b|, 64) == 2
      && var out := Reported(c, [Arrival(Fragment(a, 64, 0), now), Arrival(Fragment(b, 64, 1), now)], 1);
        out.Complete? && out.packet != a && out.packet != b
  {
    var a, b := seq(64, i => 0 as Byte), seq(64, i => 1 as Byte);
    LostStartMixesPackets(c, a, b, now);
    hide Fragment, Reported;
    var out := Reported(c, [Arrival(Fragment(a, 64, 0), now), Arrival(Fragment(b, 64, 1), now)], 1);
    assert out.packet[0] == 0 && out.packet[63] == 1;
    assert b[0] == 1 && a[63] == 0;
  }
}
