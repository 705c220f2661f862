/**
 Which result is submitted for which detection: exactly the decoded frame, or a
 failure, as the inputs of the run say.
 */
module PipelineVerdicts {
  import opened Limits
  import opened Bits
  import opened Completion
  import opened Pipeline
  import opened PipelineRuns

  /** A rejected frame that the first decoder hands on to the second one's queue. */
  predicate Deferred(r: Receiver, second: bool, decoded: Decoded) {
    !second && r.fallback && decoded.Rejected? && decoded.detected && |r.second.queue| < r.second.room
  }

  predicate Queued(r: Receiver, enabled: bool) {
    enabled && if r.parallel && r.sequence % 2 == 1 then |r.second.queue| < r.second.room else |r.first.queue| < r.first.room
  }

  /**
   The terminal result that an input brings about: the payload of a decoded frame, and
   a failure for a frame given up or a detection that is not queued.
   */
  function Says(r: Receiver, e: Input): seq<Job>
    requires Allowed(r, e)
  {
    match e
    case Finish(second, decoded) =>
      var id := (if second then r.second else r.first).hand[0];
      (match decoded
       case Frame(payload) => [Job(id, 1, true, payload)]
       case _ => if Deferred(r, second, decoded) then [] else [Job(id, 1, false, [])])
    case Detect(enabled) => if Queued(r, enabled) then [] else [Job(r.sequence, 1, false, [])]
    case _ => []
  }

  /** All results of a run, in the order in which they come about. */
  ghost function Said(r: Receiver, inputs: seq<Input>): seq<Job>
    requires exists t :: Played(r, inputs, t)
    decreases |inputs|
  {
    if inputs == [] then []
    else
      PlayedOn(r, inputs);
      Says(r, inputs[0]) + Said(Next(r, inputs[0]), inputs[1..])
  }

  lemma PlayedOn(r: Receiver, inputs: seq<Input>)
    requires inputs != [] && exists t :: Played(r, inputs, t)
    ensures Allowed(r, inputs[0]) && exists t :: Played(Next(r, inputs[0]), inputs[1..], t)
  {
    hide Next, Allowed;
    var t :| Played(r, inputs, t);
    assert Played(Next(r, inputs[0]), inputs[1..], t);
  }

  function Ids(jobs: seq<Job>): (ids: seq<nat>)
    ensures |ids| == |jobs|
  {
    seq(|jobs|, i requires 0 <= i < |jobs| => jobs[i].id)
  }

  function Jobs(jobs: seq<Job>): set<Job> {
    set job | job in jobs
  }

  /** One input submits exactly what it says. */
  lemma StepSubmits(r: Receiver, e: Input)
    requires Allowed(r, e)
    ensures Next(r, e).core.called == r.core.called + Jobs(Says(r, e))
    ensures Next(r, e).calls == r.calls + Ids(Says(r, e))
    ensures forall job | job in Says(r, e) :: Acceptable(job) && job.generation == GENERATION
  {
    hide Acceptable, SubmitStep, PopStep;
    if e.Detect? || e.Finish? {
      FailureIsAcceptable();
    }
    if e.Finish? && e.decoded.Frame? {
      FrameIsAcceptable(e.decoded.payload);
    }
  }

  lemma FailureIsAcceptable()
    ensures forall id: nat :: Acceptable(Job(id, 1, false, []))
  {}

  lemma FrameIsAcceptable(payload: seq<Byte>)
    requires 0 < |payload| <= MAX_PAYLOAD
    ensures forall id: nat :: Acceptable(Job(id, 1, true, payload))
  {}

  /** Nothing else is ever submitted, and all of it is. */
  lemma {:induction false} RunSubmits(r: Receiver, inputs: seq<Input>, t: Receiver)
    requires Played(r, inputs, t)
    ensures t.core.called == r.core.called + Jobs(Said(r, inputs))
    ensures t.calls == r.calls + Ids(Said(r, inputs))
    ensures forall job | job in Said(r, inputs) :: Acceptable(job) && job.generation == GENERATION
    decreases |inputs|
  {
    hide Next, Allowed, Acceptable, Says;
    if inputs != [] {
      assert Allowed(r, inputs[0]);
      StepSubmits(r, inputs[0]);
      RunSubmits(Next(r, inputs[0]), inputs[1..], t);
    }
  }

  // ---------------------------------------------------------------- in the order of detection

  predicate Mentions(said: seq<Job>, id: nat) {
    exists i :: 0 <= i < |said| && said[i].id == id
  }

  /** The first result with this number. */
  function Pick(said: seq<Job>, id: nat): (job: Job)
    requires Mentions(said, id)
    ensures job in said && job.id == id
  {
    if said[0].id == id then said[0]
    else
      MentionedLater(said, id);
      Pick(said[1..], id)
  }

  lemma MentionedLater(said: seq<Job>, id: nat)
    requires Mentions(said, id) && said[0].id != id
    ensures Mentions(said[1..], id)
  {
    var i :| 0 <= i < |said| && said[i].id == id;
    assert said[1..][i - 1].id == id;
  }

  ghost predicate Told(said: seq<Job>, n: nat) {
    forall id: nat | id < n :: Mentions(said, id)
  }

  /** What was said about detections 0 .. n - 1. */
  ghost function Verdicts(said: seq<Job>, n: nat): (jobs: seq<Job>)
    requires Told(said, n)
    ensures |jobs| == n && forall i | 0 <= i < n :: jobs[i] in said && jobs[i].id == i
  {
    seq(n, i requires 0 <= i < n => Pick(said, i))
  }

  lemma CalledIsMentioned(said: seq<Job>, id: nat)
    requires id in Ids(said)
    ensures Mentions(said, id)
  {
    var i :| 0 <= i < |Ids(said)| && Ids(said)[i] == id;
    assert said[i].id == id;
  }

  /** In a run from start-up that ends quiet, something was said about every detection. */
  lemma AllTold(r: Receiver, inputs: seq<Input>, t: Receiver)
    requires Starts(r) && Played(r, inputs, t) && Quiet(t)
    ensures Sound(t) && Told(Said(r, inputs), t.sequence)
    ensures t.core.called == Jobs(Said(r, inputs))
    ensures forall job | job in Said(r, inputs) :: Acceptable(job) && job.generation == GENERATION
  {
    hide Starts, Sound, Quiet, Played, Acceptable, Said, Ids, Jobs, Mentions;
    StartsSound(r);
    StartsSilent(r);
    EachDetectionOnce(r, inputs, t);
    RunSubmits(r, inputs, t);
    var said := Said(r, inputs);
    assert t.calls == Ids(said);
    forall id: nat | id < t.sequence ensures Mentions(said, id) {
      QuietBegun(t, id);
      CalledIsMentioned(said, id);
    }
  }

  lemma StartsSilent(r: Receiver)
    requires Starts(r)
    ensures r.calls == [] && r.core.called == {}
  {}

  // ---------------------------------------------------------------- first in, first out

  /** Ascending numbers below n. */
  predicate Line(ids: seq<nat>, n: nat) {
    (forall i, j | 0 <= i < j < |ids| :: ids[i] < ids[j]) && forall i | 0 <= i < |ids| :: ids[i] < n
  }

  lemma LineGrows(ids: seq<nat>, n: nat)
    requires Line(ids, n)
    ensures Line(ids + [n], n + 1) && Line(ids, n + 1)
  {}

  lemma LineDrops(ids: seq<nat>, k: nat, n: nat)
    requires Line(ids, n) && k <= |ids|
    ensures Line(ids[k..], n)
  {}

  /** The job in hand and those waiting, in the order of detection. */
  predicate InLine(d: Decoder, sequence: nat) {
    Line(d.hand + d.queue, sequence)
  }

  predicate BothInLine(r: Receiver) {
    InLine(r.first, r.sequence) && (!r.fallback ==> InLine(r.second, r.sequence))
  }

  lemma JoinsLine(d: Decoder, sequence: nat)
    requires InLine(d, sequence)
    ensures InLine(d.(queue := d.queue + [sequence]), sequence + 1) && InLine(d, sequence + 1)
  {
    LineGrows(d.hand + d.queue, sequence);
    assert d.hand + (d.queue + [sequence]) == (d.hand + d.queue) + [sequence];
    hide Line;
  }

  lemma TakesFirst(d: Decoder, sequence: nat)
    requires InLine(d, sequence) && d.hand == [] && d.queue != []
    ensures InLine(d.(queue := d.queue[1..], hand := [d.queue[0]]), sequence)
  {
    hide Line;
    assert [d.queue[0]] + d.queue[1..] == d.hand + d.queue;
  }

  lemma HandsOver(d: Decoder, sequence: nat)
    requires InLine(d, sequence)
    ensures InLine(d.(hand := []), sequence)
  {
    LineDrops(d.hand + d.queue, |d.hand|, sequence);
    hide Line;
    assert [] + d.queue == (d.hand + d.queue)[|d.hand|..];
  }

  lemma StepInLine(r: Receiver, e: Input)
    requires Allowed(r, e) && BothInLine(r)
    ensures BothInLine(Next(r, e)) && Next(r, e).fallback == r.fallback
  {
    hide InLine, SubmitStep, PopStep, Valid;
    match e
    case Detect(enabled) =>
      JoinsLine(r.first, r.sequence);
      if !r.fallback {
        JoinsLine(r.second, r.sequence);
      }
    case Take(x) =>
      if !x || !r.fallback {
        TakesFirst(DecoderAt(r, x), r.sequence);
      }
    case Finish(x, decoded) =>
      if !x || !r.fallback {
        HandsOver(DecoderAt(r, x), r.sequence);
      }
    case Step(w) =>
    case Drain =>
  }

  /**
   In every run from start-up each decoder works on its jobs in the order of detection;
   the second one only as long as the first hands nothing on to it.
   */
  lemma {:induction false} DecodersKeepOrder(r: Receiver, inputs: seq<Input>, t: Receiver)
    requires BothInLine(r) && Played(r, inputs, t)
    ensures BothInLine(t)
    decreases |inputs|
  {
    hide Next, Allowed, BothInLine;
    if inputs != [] {
      assert Allowed(r, inputs[0]);
      StepInLine(r, inputs[0]);
      DecodersKeepOrder(Next(r, inputs[0]), inputs[1..], t);
    }
  }

  lemma StartsInLine(r: Receiver)
    requires Starts(r)
    ensures BothInLine(r)
  {}
}
