/**
 From detections to packets: the jobs that the reorder window hands over, in the
 order of detection, through the drain loop and reassembly of tools/alsa_rx.c.
 */
module HostDelivery {
  import opened Bits
  import opened Completion
  import opened CompletionWindow
  import opened Pipeline
  import opened PipelineRuns
  import opened PipelineExact
  import opened PipelineVerdicts
  import opened Fragmentation
  import opened Reassembly
  import opened Transport
  import opened Link

  /** `verdicts[i]` is the job with which detection i was submitted. */
  ghost predicate Submissions(t: Receiver, verdicts: seq<Job>) {
    && |verdicts| == t.sequence
    && forall i | 0 <= i < |verdicts| ::
      verdicts[i] in t.core.called && verdicts[i].id == i && Valid(t.core.shared, verdicts[i])
  }

  lemma {:induction false} ConsumedCalled(s: System, n: nat)
    requires Windowed(s)
    ensures Consumed(s, n).called == s.called && Consumed(s, n).shared.generation == s.shared.generation
  {
    hide Windowed;
    if n > 0 {
      ConsumedCalled(s, n - 1);
      ConsumeCalled(Consumed(s, n - 1));
    }
  }

  lemma ConsumeCalled(s: System)
    requires Windowed(s)
    ensures var t := AfterConsume(s); t.called == s.called && t.shared.generation == s.shared.generation
  {}

  /** What the popped jobs say is what was submitted for each detection, in the order of detection. */
  lemma PoppedAreSubmissions(t: Receiver, verdicts: seq<Job>)
    requires Sound(t) && Windowed(t.core) && t.core.shared.next <= t.sequence
    requires DeliveredUpTo(Drained(t.core, t.sequence), t.sequence) && Submissions(t, verdicts)
    ensures Drained(t.core, t.sequence).popped == verdicts
  {
    hide Windowed, Sound, Consumed, Acceptable;
    var n := POP_STEPS * (t.sequence - t.core.shared.next);
    var s := Drained(t.core, t.sequence);
    SoundCore(t);
    ConsumedCalled(t.core, n);
    ConsumedAccepted(t.core, n);
    forall i | 0 <= i < |verdicts| ensures s.popped[i] == verdicts[i] {
      ExactContents(s, verdicts[i]);
    }
  }

  /** The loop pops each job at some time. */
  function Results(popped: seq<Job>, times: seq<nat>): (r: seq<Popped>)
    requires |popped| == |times|
    ensures |r| == |popped|
  {
    seq(|popped|, i requires 0 <= i < |popped| => Popped(popped[i].success, popped[i].payload, times[i]))
  }

  /** What the inputs of a run say about each detection is what was submitted for it. */
  lemma SaidAreSubmissions(r: Receiver, inputs: seq<Input>, t: Receiver)
    requires Starts(r) && Played(r, inputs, t) && Quiet(t)
    ensures Sound(t) && Told(Said(r, inputs), t.sequence) && Submissions(t, Verdicts(Said(r, inputs), t.sequence))
  {
    AllTold(r, inputs, t);
    SoundGeneration(t);
    hide Starts, Sound, Quiet, Played, Acceptable, Said, Told;
  }

  lemma SoundGeneration(t: Receiver)
    requires Sound(t)
    ensures t.core.shared.generation == GENERATION
  {}

  /**
   For every run from start-up that ends quiet and in which every load finds its id
   within the window: what is popped is what the inputs say about detections 0, 1, 2, ...,
   the drain loop's host takes exactly the frames decoded, in that order, and while its
   queue has room no completed packet is lost.
   */
  lemma DetectionsReachTheHost(r: Receiver, inputs: seq<Input>, t: Receiver, times: seq<nat>, c: Config, room: nat, h: Host)
    requires Starts(r) && Played(r, inputs, t) && Quiet(t) && AllLoadsInside(r, inputs)
    requires |times| == t.sequence && |h.waiting| < room
    ensures Windowed(t.core) && t.core.shared.next <= t.sequence && Told(Said(r, inputs), t.sequence)
    ensures var verdicts := Verdicts(Said(r, inputs), t.sequence);
      && Drained(t.core, t.sequence).popped == verdicts
      && var run := Arrivals(Results(verdicts, times), |times|); var g := TakenAll(c, room, h, run, |run|);
      && g.assembly == From(c, h.assembly, run, |run|) && |g.waiting| == |h.waiting|
      && g.fetched + g.waiting == h.fetched + h.waiting + Completed(c, h.assembly, run, |run|)
  {
    DeliversAllIffLoadsInside(r, inputs, t);
    SaidAreSubmissions(r, inputs, t);
    hide Starts, Sound, Quiet, Windowed, Played, AllLoadsInside, DeliveredUpTo, Drained, TakenAll, Completed, From, Arrivals, Said, Told, Submissions;
    var verdicts := Verdicts(Said(r, inputs), t.sequence);
    PoppedAreSubmissions(t, verdicts);
    var run := Arrivals(Results(verdicts, times), |times|);
    NothingHeldBack(c, room, h, run, |run|);
  }

  /**
   Detections at[0], at[1], ... decoded, in this order, the fragments of the packet, in
   time; every other detection failed.
   */
  ghost predicate Carries(said: seq<Job>, n: nat, at: seq<nat>, times: seq<nat>, c: Config, packet: seq<Byte>)
    requires Told(said, n) && |times| == n
  {
    var verdicts := Verdicts(said, n);
    && ValidClass(c.payloadClass) && Sendable(packet, c.payloadClass) && |at| == FragmentCount(|packet|, c.payloadClass)
    && (forall k | 0 <= k < |at| :: at[k] < n && verdicts[at[k]].success && verdicts[at[k]].payload == Fragment(packet, c.payloadClass, k))
    && (forall k | 0 <= k < |at| :: Elapsed(times[at[0]], times[at[k]]) <= c.timeout)
    && (forall k, l | 0 <= k < l < |at| :: at[k] < at[l])
    && forall i | 0 <= i < n && i !in at :: !verdicts[i].success
  }

  lemma {:induction false} ArrivalsAre(said: seq<Job>, n: nat, at: seq<nat>, times: seq<nat>, c: Config, packet: seq<Byte>, k: nat, i: nat)
    requires Told(said, n) && |times| == n && Carries(said, n, at, times, c, packet)
    requires i <= n && k <= |at| && (forall l | 0 <= l < k :: at[l] < i) && (k < |at| ==> at[k] >= i)
    ensures var run := Arrivals(Results(Verdicts(said, n), times), i);
      |run| == k && forall l | 0 <= l < k :: run[l] == Arrival(Fragment(packet, c.payloadClass, l), times[at[l]])
    decreases i
  {
    hide Fragment, FragmentCount, Elapsed, Verdicts, Told;
    assert k > 0 ==> at[k - 1] < i;
    if i > 0 {
      if k > 0 && at[k - 1] == i - 1 {
        ArrivalsAre(said, n, at, times, c, packet, k - 1, i - 1);
      } else {
        assert i - 1 !in at;
        ArrivalsAre(said, n, at, times, c, packet, k, i - 1);
      }
    }
  }

  lemma CarriedArrives(said: seq<Job>, n: nat, at: seq<nat>, times: seq<nat>, c: Config, packet: seq<Byte>)
    requires Told(said, n) && |times| == n && Carries(said, n, at, times, c, packet)
    ensures Arrives(packet, c, Arrivals(Results(Verdicts(said, n), times), n))
  {
    hide Fragment, FragmentCount, Elapsed, Verdicts, Told, Arrivals;
    ArrivalsAre(said, n, at, times, c, packet, |at|, n);
  }

  /** If the detections that decoded are the fragments of a packet, the packet comes out, failures in between or not. */
  lemma PacketReachesTheHost(r: Receiver, inputs: seq<Input>, t: Receiver, at: seq<nat>, times: seq<nat>, c: Config, room: nat, h: Host, packet: seq<Byte>)
    requires Starts(r) && Played(r, inputs, t) && Quiet(t) && AllLoadsInside(r, inputs)
    requires |times| == t.sequence && |h.waiting| < room && |packet| <= c.mtu && Told(Said(r, inputs), t.sequence)
    requires Carries(Said(r, inputs), t.sequence, at, times, c, packet)
    ensures Windowed(t.core) && t.core.shared.next <= t.sequence && |Drained(t.core, t.sequence).popped| == |times|
    ensures var run := Arrivals(Results(Drained(t.core, t.sequence).popped, times), |times|); var g := TakenAll(c, room, h, run, |run|);
      |g.waiting| == |h.waiting| && g.fetched + g.waiting == h.fetched + h.waiting + [packet]
  {
    hide Starts, Quiet, Windowed, Played, AllLoadsInside, Drained, TakenAll, Completed, From, Arrivals, Arrives, Said, Told, Carries, Verdicts;
    CarriedArrives(Said(r, inputs), t.sequence, at, times, c, packet);
    DetectionsReachTheHost(r, inputs, t, times, c, room, h);
    var run := Arrivals(Results(Verdicts(Said(r, inputs), t.sequence), times), |times|);
    OnePacketCompletes(packet, c, h.assembly, run, |run|);
  }
}
