/**
 Two runtimes and a link: the fragments that one transmits, fed in order to the
 other by the drain loop of tools/alsa_rx.c, come out as the packet submitted.
 */
module Link {
  import opened Limits
  import opened Bits
  import opened Fragmentation
  import opened Reassembly
  import opened Transport
  import opened Runtime

  lemma {:induction false} FragmentsAt(packet: seq<Byte>, payloadClass: nat, n: nat, i: nat)
    requires Sendable(packet, payloadClass) && i < n <= FragmentCount(|packet|, payloadClass)
    ensures |Fragments(packet, payloadClass, n)| == n && Fragments(packet, payloadClass, n)[i] == Fragment(packet, payloadClass, i)
  {
    hide FragmentCount, Fragment;
    if i < n - 1 {
      FragmentsAt(packet, payloadClass, n - 1, i);
    } else if n > 1 {
      FragmentsAt(packet, payloadClass, n - 1, 0);
    }
  }

  function FramesOf(run: seq<Arrival>): (r: seq<seq<Byte>>)
    ensures |r| == |run|
  {
    seq(|run|, i requires 0 <= i < |run| => run[i].frame)
  }

  /** What `AllSent` says was sent is what `Arrives` expects, if all of it arrives in time. */
  lemma SentArrives(packet: seq<Byte>, c: Config, run: seq<Arrival>)
    requires Sendable(packet, c.payloadClass) && FramesOf(run) == Fragments(packet, c.payloadClass, FragmentCount(|packet|, c.payloadClass))
    requires forall i | 0 <= i < |run| :: Elapsed(run[0].now, run[i].now) <= c.timeout
    ensures Arrives(packet, c, run)
  {
    var n := FragmentCount(|packet|, c.payloadClass);
    FragmentsAt(packet, c.payloadClass, n, 0);
    hide FragmentCount, Fragment, Fragments, Elapsed;
    forall i | 0 <= i < |run| ensures run[i].frame == Fragment(packet, c.payloadClass, i) {
      FragmentsAt(packet, c.payloadClass, n, i);
      assert run[i].frame == FramesOf(run)[i];
    }
  }

  // ---------------------------------------------------------------- the receiving host

  /** The reassembly, the packets waiting in the receive queue, and those fetched so far. */
  datatype Host = Host(assembly: Assembly, waiting: seq<seq<Byte>>, fetched: seq<seq<Byte>>)

  /** One fragment: a packet that becomes complete and finds room makes the loop fetch the oldest packet. */
  function Taken(c: Config, room: nat, h: Host, e: Arrival): Host {
    var (next, outcome) := Pushed(c, h.assembly, e);
    if outcome.Complete? && |h.waiting| < room then
      var all := h.waiting + [outcome.packet];
      Host(next, all[1..], h.fetched + [all[0]])
    else h.(assembly := next)
  }

  /** The host after n fragments. */
  function TakenAll(c: Config, room: nat, h: Host, run: seq<Arrival>, n: nat): Host
    requires n <= |run|
  {
    if n == 0 then h else Taken(c, room, TakenAll(c, room, h, run, n - 1), run[n - 1])
  }

  lemma {:induction false} TakenPrefix(c: Config, room: nat, h: Host, run: seq<Arrival>, more: seq<Arrival>, n: nat)
    requires n <= |run|
    ensures TakenAll(c, room, h, run + more, n) == TakenAll(c, room, h, run, n)
  {
    hide Taken;
    if n > 0 {
      TakenPrefix(c, room, h, run, more, n - 1);
    }
  }

  /** The packets that the first n fragments complete, in order. */
  function Completed(c: Config, a: Assembly, run: seq<Arrival>, n: nat): seq<seq<Byte>>
    requires n <= |run|
  {
    if n == 0 then []
    else
      var outcome := Pushed(c, From(c, a, run, n - 1), run[n - 1]).1;
      Completed(c, a, run, n - 1) + if outcome.Complete? then [outcome.packet] else []
  }

  /** As long as the queue has room, every completed packet passes through it, oldest first. */
  lemma {:induction false} NothingHeldBack(c: Config, room: nat, h: Host, run: seq<Arrival>, n: nat)
    requires n <= |run| && |h.waiting| < room
    ensures var g := TakenAll(c, room, h, run, n);
      && g.assembly == From(c, h.assembly, run, n) && |g.waiting| == |h.waiting|
      && g.fetched + g.waiting == h.fetched + h.waiting + Completed(c, h.assembly, run, n)
  {
    hide Pushed;
    if n > 0 {
      NothingHeldBack(c, room, h, run, n - 1);
      TakenOne(c, room, TakenAll(c, room, h, run, n - 1), run[n - 1]);
      hide Taken;
      var outcome := Pushed(c, From(c, h.assembly, run, n - 1), run[n - 1]).1;
      var more := if outcome.Complete? then [outcome.packet] else [];
      assert Completed(c, h.assembly, run, n) == Completed(c, h.assembly, run, n - 1) + more;
    }
  }

  lemma TakenOne(c: Config, room: nat, g: Host, e: Arrival)
    requires |g.waiting| < room
    ensures var (next, outcome) := Pushed(c, g.assembly, e); var k := Taken(c, room, g, e);
      && k.assembly == next && |k.waiting| == |g.waiting|
      && k.fetched + k.waiting == g.fetched + g.waiting + if outcome.Complete? then [outcome.packet] else []
  {
    hide Pushed;
    var outcome := Pushed(c, g.assembly, e).1;
    if outcome.Complete? {
      var all := g.waiting + [outcome.packet];
      assert g.fetched + [all[0]] + all[1..] == g.fetched + all;
    }
  }

  /** A full queue is never served by the loop: everything that completes is rejected. */
  lemma {:induction false} FullQueueStays(c: Config, room: nat, h: Host, run: seq<Arrival>, n: nat)
    requires n <= |run| && |h.waiting| >= room
    ensures var g := TakenAll(c, room, h, run, n);
      g.assembly == From(c, h.assembly, run, n) && g.waiting == h.waiting && g.fetched == h.fetched
  {
    hide Pushed;
    if n > 0 {
      FullQueueStays(c, room, h, run, n - 1);
    }
  }

  lemma {:induction false} OnePacketCompletes(packet: seq<Byte>, c: Config, a: Assembly, run: seq<Arrival>, n: nat)
    requires Arrives(packet, c, run) && |packet| <= c.mtu && n <= |run|
    ensures Completed(c, a, run, n) == if n == |run| then [packet] else []
  {
    hide Pushed, Arrives, From, Joined;
    NonEmpty(packet, c, run);
    if n > 0 {
      OnePacketCompletes(packet, c, a, run, n - 1);
      PacketRoundTrip(packet, c, a, run, n - 1);
      var outcome := Pushed(c, From(c, a, run, n - 1), run[n - 1]).1;
      assert outcome == if n == |run| then Complete(packet) else Incomplete;
    }
  }

  lemma NonEmpty(packet: seq<Byte>, c: Config, run: seq<Arrival>)
    requires Arrives(packet, c, run)
    ensures |run| > 0
  {
    hide Fragment, Elapsed;
  }

  /** The fragments of a packet, in order and in time, come out as that packet behind those that waited before. */
  lemma OnePacketFetched(packet: seq<Byte>, c: Config, room: nat, h: Host, run: seq<Arrival>)
    requires Arrives(packet, c, run) && |packet| <= c.mtu && |h.waiting| < room
    ensures var g := TakenAll(c, room, h, run, |run|);
      |g.waiting| == |h.waiting| && g.fetched + g.waiting == h.fetched + h.waiting + [packet]
  {
    hide TakenAll, Completed, Arrives, From;
    NothingHeldBack(c, room, h, run, |run|);
    OnePacketCompletes(packet, c, h.assembly, run, |run|);
  }

  // ---------------------------------------------------------------- the drain loop

  /** A peer seen as a host that has fetched `fetched`. */
  ghost function HostOf(peer: RuntimeState, fetched: seq<seq<Byte>>): Host
    reads peer, peer.assembler, peer.assembler.packet
    requires peer.Valid()
  {
    Host(peer.assembler.State(), peer.rxQueue, fetched)
  }

  /** One successful completion: the fragment is accepted, and on success the oldest packet is fetched. */
  method AcceptOne(peer: RuntimeState, frame: seq<Byte>, now: nat) returns (packets: seq<seq<Byte>>)
    requires peer.Valid()
    modifies peer, peer.assembler, peer.assembler.packet
    ensures peer.Valid() && peer.state == old(peer.state) && peer.delivered == old(peer.delivered) + |packets|
    ensures HostOf(peer, packets) == if old(peer.state) != RxIdle then old(HostOf(peer, []))
      else Taken(peer.assembler.config, peer.rxRoom, old(HostOf(peer, [])), Arrival(frame, now))
  {
    hide Pushed, BusyTail;
    packets := [];
    var status := peer.AcceptFragment(frame, now);
    if status == Ok {
      LegalHead(peer.rxQueue, peer.assembler.config.mtu);
      var received, bytes := peer.ReceivePacket(LINK_MAX_MTU);
      if received == Ok {
        packets := [bytes];
      }
    }
  }

  /** The terminal result of one detection as the loop pops it, and the clock when it does. */
  datatype Popped = Popped(success: bool, payload: seq<Byte>, now: nat)

  /** The fragments among the first n results. */
  function Arrivals(results: seq<Popped>, n: nat): seq<Arrival>
    requires n <= |results|
  {
    if n == 0 then []
    else
      var p := results[n - 1];
      Arrivals(results, n - 1) + if p.success then [Arrival(p.payload, p.now)] else []
  }

  /** The drain loop: failures are skipped, every fragment goes to the runtime, and packets are fetched as they complete. */
  method DrainResults(peer: RuntimeState, results: seq<Popped>) returns (packets: seq<seq<Byte>>)
    requires peer.Valid()
    modifies peer, peer.assembler, peer.assembler.packet
    ensures peer.Valid() && peer.state == old(peer.state) && peer.delivered == old(peer.delivered) + |packets|
    ensures var run := Arrivals(results, |results|);
      HostOf(peer, packets) == if old(peer.state) != RxIdle then old(HostOf(peer, []))
        else TakenAll(peer.assembler.config, peer.rxRoom, old(HostOf(peer, [])), run, |run|)
  {
    hide Taken, TakenAll, Arrivals, HostOf, RuntimeState.Valid;
    ghost var c, room, start := peer.assembler.config, peer.rxRoom, HostOf(peer, []);
    packets := [];
    NothingTaken(c, room, start, results);
    var n := 0;
    while n < |results|
      invariant 0 <= n <= |results| && peer.Valid() && peer.state == old(peer.state)
      invariant peer.delivered == old(peer.delivered) + |packets|
      invariant var run := Arrivals(results, n);
        HostOf(peer, packets) == if old(peer.state) != RxIdle then start else TakenAll(c, room, start, run, |run|)
    {
      var p := results[n];
      if p.success {
        ghost var run, e, before := Arrivals(results, n), Arrival(p.payload, p.now), HostOf(peer, packets);
        HostFetched(peer, [], packets);
        var fetched := AcceptOne(peer, p.payload, p.now);
        if peer.state == RxIdle {
          TakenNext(c, room, start, run, e, before, HostOf(peer, fetched));
        }
        HostFetched(peer, packets + fetched, fetched);
        packets := packets + fetched;
      }
      ArrivalsStep(results, n);
      n := n + 1;
    }
  }

  lemma HostFetched(peer: RuntimeState, f: seq<seq<Byte>>, g: seq<seq<Byte>>)
    requires peer.Valid()
    ensures HostOf(peer, f) == HostOf(peer, g).(fetched := f) && HostOf(peer, g).fetched == g
  {}

  lemma NothingTaken(c: Config, room: nat, h: Host, results: seq<Popped>)
    ensures Arrivals(results, 0) == [] && TakenAll(c, room, h, [], 0) == h
  {}

  lemma ArrivalsStep(results: seq<Popped>, n: nat)
    requires n < |results|
    ensures Arrivals(results, n + 1) == if results[n].success then Arrivals(results, n) + [Arrival(results[n].payload, results[n].now)] else Arrivals(results, n)
  {}

  /** One more fragment, fetched into a list of its own. */
  lemma TakenNext(c: Config, room: nat, start: Host, run: seq<Arrival>, e: Arrival, before: Host, after: Host)
    requires before == TakenAll(c, room, start, run, |run|) && after == Taken(c, room, before.(fetched := []), e)
    ensures TakenAll(c, room, start, run + [e], |run| + 1) == after.(fetched := before.fetched + after.fetched)
  {
    hide Taken;
    TakenPrefix(c, room, start, run, [e], |run|);
    FetchedAfter(c, room, before, e);
    assert (run + [e])[|run|] == e;
  }

  /** What was fetched before does not matter to what is fetched next. */
  lemma FetchedAfter(c: Config, room: nat, h: Host, e: Arrival)
    ensures var g := Taken(c, room, h.(fetched := []), e);
      Taken(c, room, h, e) == g.(fetched := h.fetched + g.fetched)
  {
    hide Pushed;
  }
}
