/**
 Packets through fragmentation and reassembly: the round trip, and what losing
 continuation frames can and cannot do.
 */
module Transport {
  import opened Bits
  import opened Fragmentation
  import opened Reassembly
  import opened ReassemblyRuns

  lemma FragmentHeader(packet: seq<Byte>, payloadClass: nat, i: nat)
    requires Sendable(packet, payloadClass) && i < FragmentCount(|packet|, payloadClass)
    ensures var f := Fragment(packet, payloadClass, i);
      && 1 < |f| <= payloadClass && f[1..] == Piece(packet, payloadClass, i)
      && Continues(f[0]) == (i != 0) && Remaining(f[0]) == FragmentCount(|packet|, payloadClass) - i - 1
  {
    PieceInside(|packet|, payloadClass, i);
    HeaderRoundTrip(i != 0, FragmentCount(|packet|, payloadClass) - i - 1);
    hide HeaderByte, Continues, Remaining, FragmentCount, Offset;
  }

  // ---------------------------------------------------------------- round trip

  /** All fragments of a packet, in order, at the given times. */
  ghost predicate Arrives(packet: seq<Byte>, c: Config, run: seq<Arrival>) {
    && ValidClass(c.payloadClass) && Sendable(packet, c.payloadClass) && |run| == FragmentCount(|packet|, c.payloadClass)
    && forall i | 0 <= i < |run| :: run[i].frame == Fragment(packet, c.payloadClass, i) && Elapsed(run[0].now, run[i].now) <= c.timeout
  }

  /** The assembly after n pushes, starting from any assembly at all. */
  function From(c: Config, a: Assembly, run: seq<Arrival>, n: nat): Assembly
    requires n <= |run|
  {
    if n == 0 then a else Pushed(c, From(c, a, run, n - 1), run[n - 1]).0
  }

  lemma JoinedLength(packet: seq<Byte>, payloadClass: nat, n: nat)
    requires ValidClass(payloadClass) && n <= FragmentCount(|packet|, payloadClass)
    ensures |Joined(packet, payloadClass, n)| <= |packet|
  {
    hide FragmentCount;
    JoinedPrefix(packet, payloadClass, n);
  }

  lemma FirstPush(packet: seq<Byte>, c: Config, a: Assembly, e: Arrival)
    requires Sendable(packet, c.payloadClass) && |packet| <= c.mtu && e.frame == Fragment(packet, c.payloadClass, 0)
    ensures var count, step := FragmentCount(|packet|, c.payloadClass), Pushed(c, a, e);
      && step.0 == Assembly(count > 1, Joined(packet, c.payloadClass, 1), count - 1, e.now)
      && step.1 == if count == 1 then Complete(packet) else Incomplete
  {
    FragmentHeader(packet, c.payloadClass, 0);
    JoinedLength(packet, c.payloadClass, 1);
    PiecesMakePacket(packet, c.payloadClass);
    FirstPiece(packet, c.payloadClass);
    hide Fragment, Continues, Remaining, FragmentCount, Offset, Piece, Pushed, Joined;
    PushStart(c, a, e);
  }

  lemma FirstPiece(packet: seq<Byte>, payloadClass: nat)
    requires Sendable(packet, payloadClass)
    ensures Joined(packet, payloadClass, 1) == Piece(packet, payloadClass, 0)
  {
    hide FragmentCount, Piece;
    assert Joined(packet, payloadClass, 0) == [];
  }

  lemma NextPush(packet: seq<Byte>, c: Config, a: Assembly, e: Arrival, n: nat)
    requires Sendable(packet, c.payloadClass) && |packet| <= c.mtu && 0 < n < FragmentCount(|packet|, c.payloadClass)
    requires e.frame == Fragment(packet, c.payloadClass, n) && Elapsed(a.started, e.now) <= c.timeout
    requires a == Assembly(true, Joined(packet, c.payloadClass, n), FragmentCount(|packet|, c.payloadClass) - n, a.started)
    ensures var count, step := FragmentCount(|packet|, c.payloadClass), Pushed(c, a, e);
      && step.0 == Assembly(n + 1 < count, Joined(packet, c.payloadClass, n + 1), count - n - 1, a.started)
      && step.1 == if n + 1 == count then Complete(packet) else Incomplete
  {
    FragmentHeader(packet, c.payloadClass, n);
    JoinedLength(packet, c.payloadClass, n + 1);
    PiecesMakePacket(packet, c.payloadClass);
    hide Fragment, Continues, Remaining, FragmentCount, Offset, Piece, Elapsed, Pushed;
    PushInside(c, a, e);
  }

  /**
   Whatever the receiver was in the middle of, the fragments of one packet in order
   and in time give Incomplete until the last, which gives the packet.
   */
  lemma {:induction false} PacketRoundTrip(packet: seq<Byte>, c: Config, a: Assembly, run: seq<Arrival>, n: nat)
    requires Arrives(packet, c, run) && |packet| <= c.mtu && n < |run|
    ensures var step := Pushed(c, From(c, a, run, n), run[n]);
      && step.0 == Assembly(n + 1 < |run|, Joined(packet, c.payloadClass, n + 1), |run| - n - 1, run[0].now)
      && step.1 == if n + 1 == |run| then Complete(packet) else Incomplete
  {
    hide Fragment, Pushed, FragmentCount, Elapsed, Joined;
    if n == 0 {
      FirstPush(packet, c, a, run[0]);
    } else {
      PacketRoundTrip(packet, c, a, run, n - 1);
      NextPush(packet, c, From(c, a, run, n), run[n], n);
    }
  }

  // ---------------------------------------------------------------- lost continuations

  /** Which fragment of which packet a received frame is. */
  datatype Tag = Tag(packet: nat, index: nat)

  ghost predicate Tagged(c: Config, packets: seq<seq<Byte>>, run: seq<Arrival>, tags: seq<Tag>) {
    && |tags| == |run| && ValidClass(c.payloadClass)
    && forall i | 0 <= i < |run| ::
      && tags[i].packet < |packets| && Sendable(packets[tags[i].packet], c.payloadClass)
      && tags[i].index < FragmentCount(|packets[tags[i].packet]|, c.payloadClass)
      && run[i].frame == Fragment(packets[tags[i].packet], c.payloadClass, tags[i].index)
  }

  /** Packets are sent one after another and no start frame is lost: before a continuation comes an earlier fragment of its packet. */
  predicate StartsArrive(tags: seq<Tag>) {
    forall i | 0 <= i < |tags| && tags[i].index != 0 ::
      i > 0 && tags[i - 1].packet == tags[i].packet && tags[i - 1].index < tags[i].index
  }

  lemma TaggedHeader(c: Config, packets: seq<seq<Byte>>, run: seq<Arrival>, tags: seq<Tag>, i: nat)
    requires Tagged(c, packets, run, tags) && i < |run|
    ensures WellFormed(c, run[i].frame) && run[i].frame[1..] == Piece(packets[tags[i].packet], c.payloadClass, tags[i].index)
    ensures Continues(Header(run[i])) == (tags[i].index != 0)
    ensures Remaining(Header(run[i])) == FragmentCount(|packets[tags[i].packet]|, c.payloadClass) - tags[i].index - 1
  {
    hide Continues, Remaining, FragmentCount, Piece, Fragment;
    FragmentHeader(packets[tags[i].packet], c.payloadClass, tags[i].index);
  }

  lemma TaggedWellFormed(c: Config, packets: seq<seq<Byte>>, run: seq<Arrival>, tags: seq<Tag>)
    requires Tagged(c, packets, run, tags)
    ensures AllWellFormed(c, run)
  {
    hide Tagged, WellFormed;
    forall i | 0 <= i < |run| ensures WellFormed(c, run[i].frame) {
      TaggedHeader(c, packets, run, tags, i);
    }
  }

  /** Arrivals s .. n - 1 are all fragments of one packet. */
  predicate OnePacket(tags: seq<Tag>, s: nat, n: nat)
    requires s < n <= |tags|
  {
    forall j | s <= j < n :: tags[j].packet == tags[s].packet
  }

  /** A chain that names one packet takes its fragments from the first on: the countdown leaves no choice. */
  lemma ChainIndex(c: Config, packets: seq<seq<Byte>>, run: seq<Arrival>, tags: seq<Tag>, s: nat, n: nat, j: nat)
    requires Tagged(c, packets, run, tags) && AllWellFormed(c, run) && n <= |run|
    requires Chain(c, run, s, n) && OnePacket(tags, s, n) && s <= j < n
    ensures tags[j] == Tag(tags[s].packet, j - s)
  {
    TaggedHeader(c, packets, run, tags, s);
    TaggedHeader(c, packets, run, tags, j);
    hide Tagged, WellFormed, Continues, Remaining, DataOf, FragmentCount, Elapsed;
  }

  /** When no start frame is lost, a chain names one packet. */
  lemma {:induction false} StartsNameOnePacket(c: Config, packets: seq<seq<Byte>>, run: seq<Arrival>, tags: seq<Tag>, s: nat, n: nat, j: nat)
    requires Tagged(c, packets, run, tags) && StartsArrive(tags) && AllWellFormed(c, run) && n <= |run|
    requires Chain(c, run, s, n) && s <= j < n
    ensures tags[j].packet == tags[s].packet
  {
    TaggedHeader(c, packets, run, tags, j);
    hide Tagged, WellFormed, Continues, Remaining, DataOf, FragmentCount, Elapsed;
    if j > s {
      StartsNameOnePacket(c, packets, run, tags, s, n, j - 1);
    }
  }

  lemma {:induction false} DataJoins(packet: seq<Byte>, payloadClass: nat, run: seq<Arrival>, s: nat, j: nat)
    requires ValidClass(payloadClass) && s <= j <= |run| && j - s <= FragmentCount(|packet|, payloadClass)
    requires forall i | s <= i < j :: run[i].frame != [] && run[i].frame[1..] == Piece(packet, payloadClass, i - s)
    ensures DataOf(run, s, j) == Joined(packet, payloadClass, j - s)
    decreases j
  {
    hide FragmentCount, Piece;
    if j > s {
      DataJoins(packet, payloadClass, run, s, j - 1);
    }
  }

  /**
   Packets sent one after another, any continuation frames lost, no start frame
   lost: every packet that reassembly delivers is one that was sent, whole.
   */
  lemma LostContinuationsAreSafe(c: Config, packets: seq<seq<Byte>>, run: seq<Arrival>, tags: seq<Tag>, n: nat)
    requires Tagged(c, packets, run, tags) && StartsArrive(tags) && n < |run|
    ensures Reported(c, run, n).Complete? ==> Reported(c, run, n).packet == packets[tags[n].packet]
  {
    TaggedWellFormed(c, packets, run, tags);
    DeliversExactly(c, run, n);
    hide Tagged, StartsArrive, AllWellFormed, Chain, Reported, DataOf, Joined, FragmentCount;
    if Reported(c, run, n).Complete? {
      var s: nat :| FullChain(c, run, s, n + 1);
      assert OnePacket(tags, s, n + 1) by {
        forall j | s <= j < n + 1 ensures tags[j].packet == tags[s].packet {
          StartsNameOnePacket(c, packets, run, tags, s, n + 1, j);
        }
      }
      hide OnePacket;
      FullChainData(c, packets, run, tags, s, n);
    }
  }

  lemma FullChainLength(c: Config, packets: seq<seq<Byte>>, run: seq<Arrival>, tags: seq<Tag>, s: nat, n: nat)
    requires Tagged(c, packets, run, tags) && AllWellFormed(c, run) && n < |run|
    requires FullChain(c, run, s, n + 1) && OnePacket(tags, s, n + 1)
    ensures tags[n].packet == tags[s].packet < |packets| && ValidClass(c.payloadClass)
    ensures n + 1 - s == FragmentCount(|packets[tags[s].packet]|, c.payloadClass)
  {
    ChainIndex(c, packets, run, tags, s, n + 1, s);
    ChainIndex(c, packets, run, tags, s, n + 1, n);
    TaggedHeader(c, packets, run, tags, s);
    hide OnePacket, Chain, DataOf, FragmentCount, Remaining, Fragment;
  }

  lemma ChainPiece(c: Config, packets: seq<seq<Byte>>, run: seq<Arrival>, tags: seq<Tag>, s: nat, n: nat, i: nat)
    requires Tagged(c, packets, run, tags) && AllWellFormed(c, run) && n < |run|
    requires FullChain(c, run, s, n + 1) && OnePacket(tags, s, n + 1) && s <= i <= n
    ensures tags[s].packet < |packets| && ValidClass(c.payloadClass) && i - s < FragmentCount(|packets[tags[s].packet]|, c.payloadClass)
    ensures run[i].frame != [] && run[i].frame[1..] == Piece(packets[tags[s].packet], c.payloadClass, i - s)
  {
    ChainIndex(c, packets, run, tags, s, n + 1, i);
    TaggedHeader(c, packets, run, tags, i);
    FullChainLength(c, packets, run, tags, s, n);
    hide Tagged, OnePacket, Chain, DataOf, FragmentCount, Remaining, Fragment, Piece;
  }

  lemma FullChainData(c: Config, packets: seq<seq<Byte>>, run: seq<Arrival>, tags: seq<Tag>, s: nat, n: nat)
    requires Tagged(c, packets, run, tags) && AllWellFormed(c, run) && n < |run|
    requires FullChain(c, run, s, n + 1) && OnePacket(tags, s, n + 1)
    ensures DataOf(run, s, n + 1) == packets[tags[n].packet]
  {
    FullChainLength(c, packets, run, tags, s, n);
    var packet := packets[tags[s].packet];
    hide Tagged, OnePacket, Chain, DataOf, Joined, FragmentCount, Remaining, Piece, Fragment, AllWellFormed;
    forall i | s <= i < n + 1 ensures run[i].frame != [] && run[i].frame[1..] == Piece(packet, c.payloadClass, i - s) {
      ChainPiece(c, packets, run, tags, s, n, i);
    }
    DataJoins(packet, c.payloadClass, run, s, n + 1);
    PiecesMakePacket(packet, c.payloadClass);
  }
}
