/**
 The receive pipeline of tools/alsa_rx.c: the main loop numbers detections, hands
 them to one of two bounded decode queues and, when it cannot, submits a failure
 itself; two decoder threads take jobs and submit their results; the main loop
 pops the reorder window. Steps of all threads interleave freely.
 */
module Pipeline {
  import opened Limits
  import opened Bits
  import opened Completion
  import opened CompletionWindow

  const DISPATCHER: nat := 2
  const GENERATION: nat := 1

  /** A decoder thread: its queue of job ids and the job in hand, if any. */
  datatype Decoder = Decoder(queue: seq<nat>, room: nat, hand: seq<nat>)

  /**
   `calls` lists every id for which `rtnc_completion_submit` was called. With
   `fallback` the first decoder may pass a rejected frame on to the second one's queue.
   */
  datatype Receiver = Receiver(core: System, first: Decoder, second: Decoder, sequence: nat, parallel: bool, fallback: bool, calls: seq<nat>)

  datatype Decoded = Frame(payload: seq<Byte>) | Rejected(detected: bool) | NoFrame

  datatype Input =
    | Detect(enabled: bool)
    | Take(second: bool)
    | Finish(second: bool, decoded: Decoded)
    | Step(submitter: nat)
    | Drain

  // ---------------------------------------------------------------- steps

  /** The terminal failure of a detection. */
  function Failure(id: nat): Job {
    Job(id, GENERATION, false, [])
  }

  function Verdict(id: nat, decoded: Decoded): Job {
    if decoded.Frame? then Job(id, GENERATION, true, decoded.payload) else Failure(id)
  }

  function Submitter(second: bool): nat {
    if second then 1 else 0
  }

  function DecoderAt(r: Receiver, second: bool): Decoder {
    if second then r.second else r.first
  }

  function SetDecoder(r: Receiver, second: bool, d: Decoder): Receiver {
    if second then r.(second := d) else r.(first := d)
  }

  predicate Threads(s: System) {
    Runnable(s) && |s.workers| == 3 && s.shared.generation == GENERATION && s.first == 0
  }

  /** A frame that decoded carries 1 to 128 bytes. */
  predicate Allowed(r: Receiver, e: Input) {
    Threads(r.core) &&
    match e
    case Detect(_) => !r.core.workers[DISPATCHER].InCall()
    case Take(x) => !r.core.workers[Submitter(x)].InCall() && DecoderAt(r, x).hand == [] && DecoderAt(r, x).queue != []
    case Finish(x, decoded) =>
      && !r.core.workers[Submitter(x)].InCall() && |DecoderAt(r, x).hand| == 1
      && (decoded.Frame? ==> 0 < |decoded.payload| <= MAX_PAYLOAD)
    case Step(w) => w < 3
    case Drain => true
  }

  function Submitted(r: Receiver, w: nat, job: Job): Receiver
    requires Threads(r.core) && w < 3 && !r.core.workers[w].InCall()
  {
    r.(core := After(r.core, Call(w, job)), calls := r.calls + [job.id])
  }

  /** Odd numbers go to the second decoder when there are two. */
  function Target(r: Receiver): bool {
    r.parallel && r.sequence % 2 == 1
  }

  function Detected(r: Receiver, enabled: bool): Receiver
    requires Allowed(r, Detect(enabled))
  {
    var d := DecoderAt(r, Target(r));
    if enabled && |d.queue| < d.room then
      SetDecoder(r, Target(r), d.(queue := d.queue + [r.sequence])).(sequence := r.sequence + 1)
    else
      Submitted(r, DISPATCHER, Failure(r.sequence)).(sequence := r.sequence + 1)
  }

  function Finished(r: Receiver, second: bool, decoded: Decoded): Receiver
    requires Allowed(r, Finish(second, decoded))
  {
    var d := DecoderAt(r, second);
    var idle := SetDecoder(r, second, d.(hand := []));
    if !second && r.fallback && decoded == Rejected(true) && |r.second.queue| < r.second.room then
      idle.(second := r.second.(queue := r.second.queue + d.hand))
    else
      Submitted(idle, Submitter(second), Verdict(d.hand[0], decoded))
  }

  function Next(r: Receiver, e: Input): Receiver
    requires Allowed(r, e)
  {
    match e
    case Detect(enabled) => Detected(r, enabled)
    case Take(x) =>
      var d := DecoderAt(r, x);
      SetDecoder(r, x, d.(queue := d.queue[1..], hand := [d.queue[0]]))
    case Finish(x, decoded) => Finished(r, x, decoded)
    case Step(w) => r.(core := After(r.core, Advance(w)))
    case Drain => r.(core := After(r.core, Consume))
  }

  // ---------------------------------------------------------------- each detection is submitted once

  /** In how many places a job is: queued, in hand, or submitted. */
  function Held(r: Receiver, id: nat): nat {
    multiset(r.first.queue)[id] + multiset(r.first.hand)[id] + multiset(r.second.queue)[id] + multiset(r.second.hand)[id]
    + multiset(r.calls)[id]
  }

  /** Every number assigned is in exactly one place, no other number anywhere. */
  ghost predicate Conserved(r: Receiver) {
    && (forall id: nat :: Held(r, id) == if id < r.sequence then 1 else 0)
    && (forall id: nat :: id in r.core.begun <==> id in multiset(r.calls))
  }

  ghost predicate Sound(r: Receiver) {
    Threads(r.core) && Windowed(r.core) && Conserved(r)
  }

  lemma Head(q: seq<nat>)
    requires q != []
    ensures multiset(q) == multiset(q[1..]) + multiset([q[0]])
  {
    assert q == [q[0]] + q[1..];
  }

  /** A job that is queued or in hand has not been submitted. */
  lemma PendingIsNew(r: Receiver, second: bool, id: nat)
    requires Conserved(r) && (id in DecoderAt(r, second).queue || id in DecoderAt(r, second).hand)
    ensures id < r.sequence && id !in r.core.begun
  {
    assert id in multiset(DecoderAt(r, second).queue) || id in multiset(DecoderAt(r, second).hand);
    assert Held(r, id) >= 1;
  }

  lemma NewNumber(r: Receiver)
    requires Conserved(r)
    ensures r.sequence !in r.core.begun
  {
    assert Held(r, r.sequence) == 0;
  }

  lemma CallIsSingle(r: Receiver, w: nat, job: Job)
    requires Threads(r.core) && Windowed(r.core) && w < 3 && !r.core.workers[w].InCall() && job.id !in r.core.begun
    requires Acceptable(job) && job.generation == GENERATION
    ensures var t := Submitted(r, w, job); Threads(t.core) && Windowed(t.core) && t.core.begun == r.core.begun + {job.id}
  {
    KeepsWindow(r.core, Call(w, job));
    hide Windowed, Acceptable;
  }

  lemma DetectKeepsSound(r: Receiver, enabled: bool)
    requires Sound(r) && Allowed(r, Detect(enabled))
    ensures Sound(Detected(r, enabled))
  {
    hide Windowed;
    NewNumber(r);
    var t := Detected(r, enabled);
    var d := DecoderAt(r, Target(r));
    if !(enabled && |d.queue| < d.room) {
      CallIsSingle(r, DISPATCHER, Failure(r.sequence));
    }
    hide Submitted;
    forall id: nat ensures Held(t, id) == if id < t.sequence then 1 else 0 {
      assert Held(r, id) == if id < r.sequence then 1 else 0;
    }
  }

  lemma TakeKeepsSound(r: Receiver, x: bool)
    requires Sound(r) && Allowed(r, Take(x))
    ensures Sound(Next(r, Take(x)))
  {
    hide Windowed;
    var t := Next(r, Take(x));
    Head(DecoderAt(r, x).queue);
    forall id: nat ensures Held(t, id) == if id < t.sequence then 1 else 0 {
      assert Held(r, id) == if id < r.sequence then 1 else 0;
    }
  }

  lemma FinishKeepsSound(r: Receiver, x: bool, decoded: Decoded)
    requires Sound(r) && Allowed(r, Finish(x, decoded))
    ensures Sound(Finished(r, x, decoded))
  {
    hide Windowed;
    var t, d := Finished(r, x, decoded), DecoderAt(r, x);
    PendingIsNew(r, x, d.hand[0]);
    assert d.hand == [d.hand[0]];
    if !(!x && r.fallback && decoded == Rejected(true) && |r.second.queue| < r.second.room) {
      CallIsSingle(SetDecoder(r, x, d.(hand := [])), Submitter(x), Verdict(d.hand[0], decoded));
    }
    hide Submitted;
    forall id: nat ensures Held(t, id) == if id < t.sequence then 1 else 0 {
      assert Held(r, id) == if id < r.sequence then 1 else 0;
    }
  }

  lemma CoreStepKeepsSound(r: Receiver, e: Event)
    requires Sound(r) && Possible(r.core, e) && !e.Call?
    ensures Sound(r.(core := After(r.core, e)))
  {
    KeepsWindow(r.core, e);
    CoreStepKeepsThreads(r.core, e);
    hide Windowed, After;
    forall id: nat ensures Held(r.(core := After(r.core, e)), id) == Held(r, id) {}
  }

  lemma CoreStepKeepsThreads(s: System, e: Event)
    requires Threads(s) && Windowed(s) && Possible(s, e) && !e.Call?
    ensures Threads(After(s, e)) && After(s, e).begun == s.begun
  {
    if e.Advance? {
      SubmitEffect(s.shared, s.workers[e.worker]);
      AdvanceKeepsWindow(s, e.worker);
    } else {
      assert PopOk(s.shared, s.pop, s.accepted);
      ConsumeEffect(s.shared, s.pop);
      ConsumeKeepsWindow(s);
    }
    hide SubmitStep, PopStep, Windowed;
  }

  /**
   Under any interleaving every detection number is in exactly one place, so it is
   submitted at most once, by one decoder or by the dispatcher.
   */
  lemma KeepsSound(r: Receiver, e: Input)
    requires Sound(r) && Allowed(r, e)
    ensures Sound(Next(r, e))
  {
    hide Sound, Detected, Finished, After;
    match e
    case Detect(enabled) => DetectKeepsSound(r, enabled);
    case Take(x) => TakeKeepsSound(r, x);
    case Finish(x, decoded) => FinishKeepsSound(r, x, decoded);
    case Step(w) => CoreStepKeepsSound(r, Advance(w));
    case Drain => CoreStepKeepsSound(r, Consume);
  }
}
