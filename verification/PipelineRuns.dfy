/**
 Whole runs of the receive pipeline: delivery in detection order while the number
 of open detections stays within the reorder window, and the stall that follows
 when it does not.
 */
module PipelineRuns {
  import opened Completion
  import opened CompletionWindow
  import opened Pipeline

  /** The receiver at start-up: empty queues, a window as large as both queues together. */
  ghost predicate Starts(r: Receiver) {
    && Threads(r.core) && Initial(r.core, r.first.room + r.second.room, 0, GENERATION)
    && (forall w | 0 <= w < 3 :: r.core.workers[w].Idle?)
    && r.first.queue == [] && r.second.queue == [] && r.first.hand == [] && r.second.hand == []
    && r.sequence == 0 && r.calls == []
  }

  ghost predicate Played(r: Receiver, inputs: seq<Input>, t: Receiver)
    decreases |inputs|
  {
    if inputs == [] then t == r else Allowed(r, inputs[0]) && Played(Next(r, inputs[0]), inputs[1..], t)
  }

  lemma StartsSound(r: Receiver)
    requires Starts(r)
    ensures Sound(r)
  {
    StartsWindowed(r.core, r.first.room + r.second.room, 0, GENERATION);
    hide Windowed;
    forall id: nat ensures Held(r, id) == 0 {}
  }

  /** In every run each detection number is queued, in hand or submitted, and only once. */
  lemma {:induction false} EachDetectionOnce(r: Receiver, inputs: seq<Input>, t: Receiver)
    requires Sound(r) && Played(r, inputs, t)
    ensures Sound(t)
    decreases |inputs|
  {
    hide Sound, Next, Allowed;
    if inputs != [] {
      assert Allowed(r, inputs[0]);
      KeepsSound(r, inputs[0]);
      EachDetectionOnce(Next(r, inputs[0]), inputs[1..], t);
    }
  }

  // ---------------------------------------------------------------- within the window

  predicate Near(s: System, ids: seq<nat>) {
    forall k | 0 <= k < |ids| :: ids[k] < s.shared.next + |s.shared.cells|
  }

  predicate Holds(h: Shared, p: Submit, id: nat) {
    Active(h, p) && p.job.id == id
  }

  ghost predicate Answered(s: System) {
    |s.workers| == 3 && forall id: nat | id in s.begun ::
      id in s.returned || Holds(s.shared, s.workers[0], id) || Holds(s.shared, s.workers[1], id) || Holds(s.shared, s.workers[2], id)
  }

  ghost predicate Fits(r: Receiver) {
    && AllOnTime(r.core) && Answered(r.core)
    && Near(r.core, r.first.queue) && Near(r.core, r.second.queue) && Near(r.core, r.first.hand) && Near(r.core, r.second.hand)
  }

  /** The window assumption: a detection is numbered while it is within capacity of the next job to deliver. */
  predicate WithinWindow(r: Receiver, e: Input) {
    e.Detect? ==> r.sequence < r.core.shared.next + |r.core.shared.cells|
  }

  lemma CallFits(r: Receiver, w: nat, job: Job)
    requires Sound(r) && Fits(r) && w < 3 && !r.core.workers[w].InCall() && Acceptable(job) && job.generation == GENERATION
    requires job.id < r.core.shared.next + |r.core.shared.cells|
    ensures Fits(Submitted(r, w, job)) && Further(r.core, Submitted(r, w, job).core)
  {
    SoundCore(r);
    hide Sound;
    OnTimeCall(r.core, w, job);
    hide AllOnTime, Windowed, Acceptable, After, Answered;
  }

  lemma SoundCore(r: Receiver)
    requires Sound(r)
    ensures Threads(r.core) && Windowed(r.core)
  {}

  predicate Further(s: System, t: System) {
    s.shared.next <= t.shared.next && |s.shared.cells| == |t.shared.cells| && s.shared.rejected == t.shared.rejected
  }

  lemma CoreStepFits(r: Receiver, e: Event)
    requires Sound(r) && Fits(r) && Possible(r.core, e) && !e.Call?
    ensures Fits(r.(core := After(r.core, e))) && Further(r.core, After(r.core, e))
  {
    SoundCore(r);
    hide Sound;
    KeepsOnTime(r.core, e);
    assert NoneRejected(r.core);
    CoreAnswers(r.core, e);
    CoreFurther(r.core, e);
    hide AllOnTime, Windowed, Answered, After;
  }

  /** No valid submission is on its way out with a refusal. */
  predicate NoneRejected(s: System) {
    forall w | 0 <= w < |s.workers| && s.workers[w].Rejecting? :: !Active(s.shared, s.workers[w])
  }

  lemma CoreAnswers(s: System, e: Event)
    requires Threads(s) && Windowed(s) && NoneRejected(s) && Answered(s) && Possible(s, e) && !e.Call?
    ensures Answered(After(s, e))
  {
    if e.Advance? {
      var p := s.workers[e.worker];
      SubmitEffect(s.shared, p);
      assert ActiveOk(s.shared, p, s.begun, s.returned);
      if Active(s.shared, p) {
        Answers(s.shared, p, s.begun, s.returned);
      }
    } else {
      assert PopOk(s.shared, s.pop, s.accepted);
      ConsumeEffect(s.shared, s.pop);
    }
    hide SubmitStep, PopStep, Windowed, ActiveOk, NoneRejected;
  }

  lemma CoreFurther(s: System, e: Event)
    requires Threads(s) && Windowed(s) && AllOnTime(s) && Possible(s, e) && !e.Call?
    ensures Further(s, After(s, e))
  {
    KeepsOnTime(s, e);
    if e.Advance? {
      SubmitEffect(s.shared, s.workers[e.worker]);
    } else {
      assert PopOk(s.shared, s.pop, s.accepted);
      ConsumeEffect(s.shared, s.pop);
    }
    hide SubmitStep, PopStep, Windowed, AllOnTime;
  }

  /** A valid call that is not refused ends only by storing its job. */
  lemma Answers(h: Shared, p: Submit, begun: set<nat>, returned: set<nat>)
    requires h.WellFormed() && ActiveOk(h, p, begun, returned) && Active(h, p) && !p.Rejecting?
    ensures var step := SubmitStep(h, p); step.1.InCall() || (p.Owning? && step.1.Returned?)
  {}

  lemma KeepsFits(r: Receiver, e: Input)
    requires Sound(r) && Fits(r) && Allowed(r, e) && WithinWindow(r, e)
    ensures Fits(Next(r, e)) && Further(r.core, Next(r, e).core)
  {
    hide Sound, Submitted, AllOnTime, Answered, After;
    match e
    case Detect(enabled) =>
      var d := DecoderAt(r, Target(r));
      if !(enabled && |d.queue| < d.room) {
        CallFits(r, DISPATCHER, Failure(r.sequence));
        SubmitsOnly(r, DISPATCHER, Failure(r.sequence));
      }
    case Take(x) =>
    case Finish(x, decoded) => FinishFits(r, x, decoded);
    case Step(w) => CoreStepFits(r, Advance(w));
    case Drain => CoreStepFits(r, Consume);
  }

  lemma SubmitsOnly(r: Receiver, w: nat, job: Job)
    requires Threads(r.core) && w < 3 && !r.core.workers[w].InCall()
    ensures var t := Submitted(r, w, job); t == r.(core := t.core, calls := t.calls)
  {}

  lemma FinishFits(r: Receiver, x: bool, decoded: Decoded)
    requires Sound(r) && Fits(r) && Allowed(r, Finish(x, decoded))
    ensures Fits(Finished(r, x, decoded)) && Further(r.core, Finished(r, x, decoded).core)
  {
    var d := DecoderAt(r, x);
    var idle := SetDecoder(r, x, d.(hand := []));
    assert Near(r.core, d.hand);
    PendingIsNew(r, x, d.hand[0]);
    var job := Verdict(d.hand[0], decoded);
    hide Submitted, AllOnTime, Answered, After, Windowed;
    if !(!x && r.fallback && decoded == Rejected(true) && |r.second.queue| < r.second.room) {
      assert Threads(r.core);
      hide Sound, Conserved;
      OnTimeCall(r.core, Submitter(x), job);
      SubmitsOnly(idle, Submitter(x), job);
      SubmittedCore(idle, Submitter(x), job);
    }
  }

  lemma SubmittedCore(r: Receiver, w: nat, job: Job)
    requires Threads(r.core) && w < 3 && !r.core.workers[w].InCall()
    ensures Submitted(r, w, job).core == After(r.core, Call(w, job))
  {}

  lemma OnTimeCall(s: System, w: nat, job: Job)
    requires Threads(s) && Windowed(s) && AllOnTime(s) && Answered(s) && w < 3 && !s.workers[w].InCall()
    requires Acceptable(job) && job.generation == GENERATION && job.id < s.shared.next + |s.shared.cells|
    ensures var t := After(s, Call(w, job)); AllOnTime(t) && Answered(t) && Further(s, t)
  {
    KeepsOnTime(s, Call(w, job));
    hide AllOnTime, Windowed, Acceptable;
  }

  /** A run that keeps to the window assumption. */
  ghost predicate WindowRun(r: Receiver, inputs: seq<Input>, t: Receiver)
    decreases |inputs|
  {
    if inputs == [] then t == r
    else Allowed(r, inputs[0]) && WithinWindow(r, inputs[0]) && WindowRun(Next(r, inputs[0]), inputs[1..], t)
  }

  lemma StartsFits(r: Receiver)
    requires Starts(r)
    ensures Fits(r)
  {}

  /**
   While no more detections are open than the window holds, no submission is
   rejected and what is popped is detection 0, 1, 2, ... with the job each submitted.
   */
  lemma {:induction false} DeliversInOrder(r: Receiver, inputs: seq<Input>, t: Receiver)
    requires Sound(r) && Fits(r) && WindowRun(r, inputs, t)
    ensures Sound(t) && Fits(t) && t.core.shared.rejected == r.core.shared.rejected
    ensures t.core.shared.next == |t.core.popped|
    ensures forall job | job in t.core.called && Acceptable(job) && job.generation == GENERATION && job.id < |t.core.popped| ::
      t.core.popped[job.id] == job
    decreases |inputs|
  {
    if inputs == [] {
      PoppedExactly(t);
    }
    hide Sound, Next, Allowed, Fits;
    if inputs != [] {
      assert Allowed(r, inputs[0]);
      KeepsSound(r, inputs[0]);
      KeepsFits(r, inputs[0]);
      DeliversInOrder(Next(r, inputs[0]), inputs[1..], t);
    }
  }

  lemma PoppedExactly(t: Receiver)
    requires Sound(t)
    ensures t.core.shared.next == |t.core.popped|
    ensures forall job | job in t.core.called && Acceptable(job) && job.generation == GENERATION && job.id < |t.core.popped| ::
      t.core.popped[job.id] == job
  {
    assert PoppedOk(t.core);
    forall job | job in t.core.called && Acceptable(job) && job.generation == GENERATION && job.id < |t.core.popped|
      ensures t.core.popped[job.id] == job
    {
      ExactContents(t.core, job);
    }
  }

  predicate Quiet(r: Receiver) {
    && r.first.queue == [] && r.second.queue == [] && r.first.hand == [] && r.second.hand == []
    && (forall w | 0 <= w < |r.core.workers| :: !r.core.workers[w].InCall()) && r.core.pop.Rest?
  }

  lemma QuietReturned(r: Receiver, id: nat)
    requires Sound(r) && Fits(r) && Quiet(r)
    ensures id in r.core.returned <==> id < r.sequence
  {
    hide Core, Workers, Cells, AdvancingOk, CompletionWindow.Places, Distinct, AllOnTime;
    assert Held(r, id) == if id < r.sequence then 1 else 0;
  }

  // ---------------------------------------------------------------- beyond the window

  /** A job whose submission was turned away. */
  ghost predicate Lost(r: Receiver, id: nat) {
    && id in r.calls && (forall job | job in r.core.accepted :: job.id != id)
    && forall w | 0 <= w < |r.core.workers| && r.core.workers[w].InCall() :: r.core.workers[w].job.id != id
  }

  // ---------------------------------------------------------------- exactly when everything is delivered

  /** With no thread in between, a stored or popped job was accepted. */
  lemma ReturnedIsAccepted(s: System, id: nat)
    requires Windowed(s) && s.pop.Rest? && s.first <= id && id in s.returned
    ensures exists job :: job in s.accepted && job.id == id
  {
    assert Kept(s.shared, s.pop, id);
    if id < s.shared.next {
      PoppedJob(s, id);
      hide Windowed;
      assert s.popped[id - s.first] in s.accepted && s.popped[id - s.first].id == id;
    } else {
      assert CellOk(s.shared, s.shared.At(id), s.accepted);
      hide Windowed;
      assert JobOf(s.shared.cells[s.shared.At(id)].completion) in s.accepted;
    }
  }

  lemma QuietBegun(r: Receiver, id: nat)
    requires Sound(r) && Quiet(r) && id < r.sequence
    ensures id in r.calls && id in r.core.begun
  {
    hide Windowed;
    assert Held(r, id) == 1;
    assert id in multiset(r.calls);
  }

  /** Once all is quiet, each detection has been stored for delivery or was turned away. */
  lemma ReturnedOrLost(r: Receiver, id: nat)
    requires Sound(r) && Quiet(r) && id < r.sequence
    ensures id in r.core.returned <==> !Lost(r, id)
  {
    QuietBegun(r, id);
    assert Settled(r.core) && r.core.pop.Rest? && r.core.first == 0;
    if id in r.core.returned {
      ReturnedIsAccepted(r.core, id);
    } else {
      hide Windowed, Conserved;
      forall job | job in r.core.accepted ensures job.id != id {
        assert !Owned(r.core, job);
      }
    }
  }

  lemma QuietBounds(r: Receiver, id: nat)
    requires Sound(r) && id in r.core.returned
    ensures id < r.sequence
  {
    assert id in r.core.begun;
    hide Windowed;
    assert id in multiset(r.calls);
    assert Held(r, id) >= 1;
  }

  lemma NextBounds(r: Receiver)
    requires Sound(r)
    ensures r.core.shared.next <= r.sequence && Windowed(r.core)
  {
    if r.core.shared.next > r.sequence {
      PoppedReturned(r.core, r.sequence);
      QuietBounds(r, r.sequence);
    }
  }

  lemma {:induction false} ConsumedAccepted(s: System, n: nat)
    requires Windowed(s)
    ensures Consumed(s, n).accepted == s.accepted && Consumed(s, n).first == s.first
  {
    hide Windowed, PopStep;
    if n > 0 {
      ConsumedAccepted(s, n - 1);
    }
  }

  /**
   When the threads have finished, popping hands over every detection, none skipped
   and none twice, if and only if no submission was turned away.
   */
  lemma DeliversAllExactly(r: Receiver)
    requires Sound(r) && Quiet(r)
    ensures r.core.shared.next <= r.sequence && Windowed(r.core)
    ensures DeliveredUpTo(Drained(r.core, r.sequence), r.sequence) <==> forall id: nat | id < r.sequence :: !Lost(r, id)
  {
    NextBounds(r);
    assert r.core.pop.Rest? && r.core.first == 0;
    hide Sound, Quiet, Windowed, Lost, DeliveredUpTo, Consumed;
    if forall id: nat | id < r.sequence :: !Lost(r, id) {
      forall id: nat ensures id in r.core.returned <==> id < r.sequence {
        if id < r.sequence {
          ReturnedOrLost(r, id);
        } else if id in r.core.returned {
          QuietBounds(r, id);
        }
      }
      EmptiesTheWindow(r.core, r.sequence);
    } else {
      var id: nat :| id < r.sequence && Lost(r, id);
      LostIsNotDelivered(r, id);
    }
  }

  lemma LostIsNotDelivered(r: Receiver, id: nat)
    requires Windowed(r.core) && r.core.first == 0 && r.core.shared.next <= r.sequence && id < r.sequence && Lost(r, id)
    ensures !DeliveredUpTo(Drained(r.core, r.sequence), r.sequence)
  {
    hide Windowed, Consumed, Core;
    var n := POP_STEPS * (r.sequence - r.core.shared.next);
    ConsumedAccepted(r.core, n);
    var t := Consumed(r.core, n);
    WindowedIsCore(t);
    MissingJobBlocks(t, id);
  }

  lemma WindowedIsCore(s: System)
    requires Windowed(s)
    ensures Core(s)
  {}

  /** Within the window nothing is turned away, so everything is delivered. */
  lemma DeliversAll(r: Receiver)
    requires Sound(r) && Fits(r) && Quiet(r)
    ensures r.core.shared.next <= r.sequence && Windowed(r.core)
    ensures DeliveredUpTo(Drained(r.core, r.sequence), r.sequence)
  {
    DeliversAllExactly(r);
    hide Sound, Fits, Quiet, Windowed, Lost, Drained, DeliveredUpTo;
    forall id: nat | id < r.sequence ensures !Lost(r, id) {
      QuietReturned(r, id);
      ReturnedOrLost(r, id);
    }
  }

  lemma LostCore(s: System, e: Event, id: nat)
    requires Runnable(s) && Possible(s, e) && (e.Call? ==> e.job.id != id)
    requires forall job | job in s.accepted :: job.id != id
    requires forall w | 0 <= w < |s.workers| && s.workers[w].InCall() :: s.workers[w].job.id != id
    ensures var t := After(s, e);
      && (forall job | job in t.accepted :: job.id != id)
      && forall w | 0 <= w < |t.workers| && t.workers[w].InCall() :: t.workers[w].job.id != id
  {
    if e.Advance? {
      SubmitJob(s.shared, s.workers[e.worker]);
      ClaimsOnly(s.shared, s.workers[e.worker]);
    }
    hide SubmitStep, PopStep;
  }

  lemma KeepsLost(r: Receiver, e: Input, id: nat)
    requires Sound(r) && Allowed(r, e) && Lost(r, id)
    ensures Lost(Next(r, e), id)
  {
    assert id in multiset(r.calls);
    assert id in r.core.begun;
    match e
    case Detect(enabled) =>
      NewNumber(r);
      LostCore(r.core, Call(DISPATCHER, Failure(r.sequence)), id);
    case Take(x) =>
    case Finish(x, decoded) =>
      PendingIsNew(r, x, DecoderAt(r, x).hand[0]);
      LostCore(r.core, Call(Submitter(x), Verdict(DecoderAt(r, x).hand[0], decoded)), id);
    case Step(w) => LostCore(r.core, Advance(w), id);
    case Drain => LostCore(r.core, Consume, id);
  }

  /** One lost job stops delivery for good: in every continuation nothing from it onwards is ever popped. */
  lemma {:induction false} LostBlocksForever(r: Receiver, inputs: seq<Input>, t: Receiver, id: nat)
    requires Sound(r) && Lost(r, id) && Played(r, inputs, t)
    ensures Sound(t) && Lost(t, id) && t.core.shared.next <= id
    ensures forall i | 0 <= i < |t.core.popped| :: t.core.popped[i].id < id
    decreases |inputs|
  {
    if inputs == [] {
      hide Workers, Cells, CompletionWindow.Places, AdvancingOk, Counted, Distinct;
      MissingJobBlocks(t.core, id);
    }
    hide Sound, Next, Allowed, Lost;
    if inputs != [] {
      assert Allowed(r, inputs[0]);
      KeepsSound(r, inputs[0]);
      KeepsLost(r, inputs[0], id);
      LostBlocksForever(Next(r, inputs[0]), inputs[1..], t, id);
    }
  }
}
