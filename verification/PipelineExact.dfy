/**
 Exactly which runs of the receive pipeline deliver everything: those in which every
 submission finds its id within the window when it loads the next id.
 */
module PipelineExact {
  import opened Completion
  import opened CompletionWindow
  import opened Pipeline
  import opened PipelineRuns

  /** The load of the next id in `rtnc_completion_submit` finds the job less than a window ahead. */
  predicate LoadsInside(r: Receiver, e: Input)
    requires Allowed(r, e)
  {
    e.Step? && r.core.workers[e.submitter].Loading? ==>
      r.core.workers[e.submitter].job.id < r.core.shared.next + |r.core.shared.cells|
  }

  /** So does every load of the run. */
  ghost predicate AllLoadsInside(r: Receiver, inputs: seq<Input>)
    decreases |inputs|
  {
    inputs == [] || (Allowed(r, inputs[0]) && LoadsInside(r, inputs[0]) && AllLoadsInside(Next(r, inputs[0]), inputs[1..]))
  }

  // ---------------------------------------------------------------- loads inside the window

  predicate InReach(h: Shared, p: Submit) {
    Active(h, p) ==> !p.Rejecting? && (p.Ranging? ==> p.job.id < p.next + |h.cells|)
  }

  ghost predicate AllInReach(s: System) {
    forall w | 0 <= w < |s.workers| :: InReach(s.shared, s.workers[w])
  }

  ghost predicate Reached(r: Receiver) {
    AllInReach(r.core) && Answered(r.core)
  }

  lemma AdvanceInReach(h: Shared, p: Submit, begun: set<nat>, returned: set<nat>)
    requires h.WellFormed() && ActiveOk(h, p, begun, returned) && InReach(h, p)
    requires p.Loading? ==> p.job.id < h.next + |h.cells|
    ensures InReach(SubmitStep(h, p).0, SubmitStep(h, p).1)
  {
    hide Acceptable, Store;
  }

  lemma CoreReaches(s: System, e: Event)
    requires Threads(s) && Windowed(s) && AllInReach(s) && Answered(s) && Possible(s, e) && !e.Call?
    requires e.Advance? && s.workers[e.worker].Loading? ==> s.workers[e.worker].job.id < s.shared.next + |s.shared.cells|
    ensures AllInReach(After(s, e)) && Answered(After(s, e))
  {
    assert NoneRejected(s) by {
      forall w | 0 <= w < |s.workers| && s.workers[w].Rejecting? ensures !Active(s.shared, s.workers[w]) {
        assert InReach(s.shared, s.workers[w]);
      }
    }
    CoreAnswers(s, e);
    var t := After(s, e);
    if e.Advance? {
      SubmitEffect(s.shared, s.workers[e.worker]);
      assert ActiveOk(s.shared, s.workers[e.worker], s.begun, s.returned) && InReach(s.shared, s.workers[e.worker]);
      AdvanceInReach(s.shared, s.workers[e.worker], s.begun, s.returned);
    } else {
      assert PopOk(s.shared, s.pop, s.accepted);
      ConsumeEffect(s.shared, s.pop);
    }
    hide Windowed, SubmitStep, PopStep, Valid, Answered, NoneRejected;
    forall w | 0 <= w < |t.workers| ensures InReach(t.shared, t.workers[w]) {
      assert InReach(s.shared, s.workers[w]);
      SameValid(s.shared, t.shared, s.workers[w]);
    }
  }

  lemma CallReaches(s: System, w: nat, job: Job)
    requires Threads(s) && AllInReach(s) && Answered(s) && w < 3 && !s.workers[w].InCall() && Acceptable(job) && job.generation == GENERATION
    ensures var t := After(s, Call(w, job)); AllInReach(t) && Answered(t)
  {
    hide Acceptable;
  }

  lemma KeepsReached(r: Receiver, e: Input)
    requires Sound(r) && Reached(r) && Allowed(r, e) && LoadsInside(r, e)
    ensures Reached(Next(r, e))
  {
    SoundCore(r);
    hide Sound, Windowed, AllInReach, Answered, After, Acceptable;
    match e
    case Detect(enabled) =>
      var d := DecoderAt(r, Target(r));
      if !(enabled && |d.queue| < d.room) {
        CallIsValid(Failure(r.sequence));
        CallReaches(r.core, DISPATCHER, Failure(r.sequence));
      }
    case Take(x) =>
    case Finish(x, decoded) =>
      var job := Verdict(DecoderAt(r, x).hand[0], decoded);
      VerdictIsValid(DecoderAt(r, x).hand[0], decoded);
      CallReaches(r.core, Submitter(x), job);
    case Step(w) => CoreReaches(r.core, Advance(w));
    case Drain => CoreReaches(r.core, Consume);
  }

  lemma CallIsValid(job: Job)
    requires !job.success && job.payload == []
    ensures Acceptable(job)
  {}

  lemma VerdictIsValid(id: nat, decoded: Decoded)
    requires decoded.Frame? ==> 0 < |decoded.payload| <= 128
    ensures Acceptable(Verdict(id, decoded)) && Verdict(id, decoded).generation == GENERATION
  {}

  lemma StartsReached(r: Receiver)
    requires Starts(r)
    ensures Reached(r)
  {}

  lemma {:induction false} RunReaches(r: Receiver, inputs: seq<Input>, t: Receiver)
    requires Sound(r) && Reached(r) && Played(r, inputs, t) && AllLoadsInside(r, inputs)
    ensures Sound(t) && Reached(t)
    decreases |inputs|
  {
    hide Sound, Next, Allowed, Reached, LoadsInside;
    if inputs != [] {
      assert Allowed(r, inputs[0]) && LoadsInside(r, inputs[0]);
      KeepsSound(r, inputs[0]);
      KeepsReached(r, inputs[0]);
      RunReaches(Next(r, inputs[0]), inputs[1..], t);
    }
  }

  lemma ReachedLosesNothing(t: Receiver, id: nat)
    requires Sound(t) && Reached(t) && Quiet(t) && id < t.sequence
    ensures !Lost(t, id)
  {
    QuietBegun(t, id);
    ReturnedOrLost(t, id);
    hide Sound, Lost, AllInReach, Windowed;
  }

  // ---------------------------------------------------------------- a load outside the window

  /** The job was called for, is not accepted, and any call still under way for it is about to be refused. */
  ghost predicate Doomed(r: Receiver, id: nat) {
    && id in r.calls && (forall job | job in r.core.accepted :: job.id != id)
    && forall w | 0 <= w < |r.core.workers| :: OnlyRefused(r.core.shared, r.core.workers[w], id)
  }

  predicate OnlyRefused(h: Shared, p: Submit, id: nat) {
    Active(h, p) && p.job.id == id ==> p.Rejecting? || (p.Ranging? && id >= p.next + |h.cells|)
  }

  lemma AdvanceRefuses(h: Shared, p: Submit, begun: set<nat>, returned: set<nat>, id: nat)
    requires h.WellFormed() && ActiveOk(h, p, begun, returned) && OnlyRefused(h, p, id)
    ensures var step := SubmitStep(h, p);
      OnlyRefused(step.0, step.1, id) && (step.1.Owning? && step.1.job.id == id ==> false)
  {
    hide Acceptable, Store;
  }

  lemma CoreKeepsDoomed(s: System, e: Event, id: nat)
    requires Windowed(s) && Possible(s, e) && (e.Call? ==> e.job.id != id)
    requires forall job | job in s.accepted :: job.id != id
    requires forall w | 0 <= w < |s.workers| :: OnlyRefused(s.shared, s.workers[w], id)
    ensures var t := After(s, e);
      && (forall job | job in t.accepted :: job.id != id)
      && forall w | 0 <= w < |t.workers| :: OnlyRefused(t.shared, t.workers[w], id)
  {
    var t := After(s, e);
    if e.Advance? {
      SubmitEffect(s.shared, s.workers[e.worker]);
      assert ActiveOk(s.shared, s.workers[e.worker], s.begun, s.returned) && OnlyRefused(s.shared, s.workers[e.worker], id);
      AdvanceRefuses(s.shared, s.workers[e.worker], s.begun, s.returned, id);
    } else if e.Consume? {
      assert PopOk(s.shared, s.pop, s.accepted);
      ConsumeEffect(s.shared, s.pop);
    }
    hide Windowed, SubmitStep, PopStep, Valid;
    forall w | 0 <= w < |t.workers| ensures OnlyRefused(t.shared, t.workers[w], id) {
      assert OnlyRefused(s.shared, s.workers[w], id);
      SameValid(s.shared, t.shared, s.workers[w]);
    }
  }

  lemma KeepsDoomed(r: Receiver, e: Input, id: nat)
    requires Sound(r) && Allowed(r, e) && Doomed(r, id)
    ensures Doomed(Next(r, e), id)
  {
    assert id in multiset(r.calls);
    assert id in r.core.begun;
    match e
    case Detect(enabled) =>
      NewNumber(r);
      CoreKeepsDoomed(r.core, Call(DISPATCHER, Failure(r.sequence)), id);
      hide Windowed, OnlyRefused, Conserved;
    case Take(x) =>
    case Finish(x, decoded) =>
      PendingIsNew(r, x, DecoderAt(r, x).hand[0]);
      CoreKeepsDoomed(r.core, Call(Submitter(x), Verdict(DecoderAt(r, x).hand[0], decoded)), id);
      hide Windowed, OnlyRefused, Conserved;
    case Step(w) => CoreKeepsDoomed(r.core, Advance(w), id);
    case Drain => CoreKeepsDoomed(r.core, Consume, id);
  }

  lemma {:induction false} RunKeepsDoomed(r: Receiver, inputs: seq<Input>, t: Receiver, id: nat)
    requires Sound(r) && Doomed(r, id) && Played(r, inputs, t)
    ensures Sound(t) && Doomed(t, id)
    decreases |inputs|
  {
    hide Sound, Next, Allowed, Doomed;
    if inputs != [] {
      assert Allowed(r, inputs[0]);
      KeepsSound(r, inputs[0]);
      KeepsDoomed(r, inputs[0], id);
      RunKeepsDoomed(Next(r, inputs[0]), inputs[1..], t, id);
    }
  }

  /** Nothing is accepted yet for a job that is still being submitted, and nobody else submits it. */
  lemma UnderWay(s: System, w: nat, v: nat)
    requires Windowed(s) && w < |s.workers| && Active(s.shared, s.workers[w]) && !s.workers[w].Owning? && v < |s.workers|
    ensures s.workers[w].job.id in s.begun && forall job | job in s.accepted :: job.id != s.workers[w].job.id
    ensures v != w && Active(s.shared, s.workers[v]) ==> s.workers[v].job.id != s.workers[w].job.id
  {
    assert ActiveOk(s.shared, s.workers[w], s.begun, s.returned) && Settled(s);
    assert v != w ==> OtherJob(s.shared, s.workers[v], s.workers[w]);
    forall job | job in s.accepted ensures job.id != s.workers[w].job.id {
      if job.id == s.workers[w].job.id {
        var u :| 0 <= u < |s.workers| && s.workers[u].Owning? && s.workers[u].job == job;
        OwnerIsActive(s, u);
        hide Core, Cells, Places, Counted, AdvancingOk, Distinct;
      }
    }
  }

  lemma OwnerIsActive(s: System, u: nat)
    requires Windowed(s) && u < |s.workers| && s.workers[u].Owning?
    ensures Active(s.shared, s.workers[u])
  {
    assert ActiveOk(s.shared, s.workers[u], s.begun, s.returned);
    hide Core, Cells, Places, Counted, AdvancingOk, Distinct, Valid;
  }

  /** A load outside the window leaves the range test no choice. */
  lemma OutsideDooms(r: Receiver, w: nat) returns (id: nat)
    requires Sound(r) && Allowed(r, Step(w)) && !LoadsInside(r, Step(w))
    ensures Doomed(Next(r, Step(w)), id)
  {
    var s, t := r.core, Next(r, Step(w)).core;
    id := s.workers[w].job.id;
    assert ActiveOk(s.shared, s.workers[w], s.begun, s.returned);
    SubmitEffect(s.shared, s.workers[w]);
    assert id in multiset(r.calls) by {
      UnderWay(s, w, w);
      hide Windowed;
    }
    forall v | 0 <= v < |t.workers| ensures OnlyRefused(t.shared, t.workers[v], id) {
      UnderWay(s, w, v);
      hide Windowed, Valid, Conserved;
      SameValid(s.shared, t.shared, s.workers[v]);
    }
    UnderWay(s, w, w);
  }

  /** A run with a load outside the window ends with a doomed job. */
  lemma {:induction false} OutsideIsFatal(r: Receiver, inputs: seq<Input>, t: Receiver) returns (id: nat)
    requires Sound(r) && Played(r, inputs, t) && !AllLoadsInside(r, inputs)
    ensures Sound(t) && Doomed(t, id)
    decreases |inputs|
  {
    hide Sound, Next, Allowed, Doomed;
    var e, rest := inputs[0], inputs[1..];
    assert Allowed(r, e);
    KeepsSound(r, e);
    if LoadsInside(r, e) {
      id := OutsideIsFatal(Next(r, e), rest, t);
    } else {
      id := OutsideDooms(r, e.submitter);
      RunKeepsDoomed(Next(r, e), rest, t, id);
    }
  }

  /** Once all is quiet a doomed job is lost. */
  lemma DoomedIsLost(t: Receiver, id: nat)
    requires Sound(t) && Quiet(t) && Doomed(t, id)
    ensures id < t.sequence && Lost(t, id)
  {
    assert id in multiset(t.calls);
    hide Windowed;
    assert Held(t, id) >= 1;
  }

  /**
   For every run from start-up that ends quiet: popping hands over every detection,
   none skipped and none twice, if and only if every submission loaded a next id less
   than a window behind its own.
   */
  lemma DeliversAllIffLoadsInside(r: Receiver, inputs: seq<Input>, t: Receiver)
    requires Starts(r) && Played(r, inputs, t) && Quiet(t)
    ensures Sound(t) && Windowed(t.core) && t.core.shared.next <= t.sequence
    ensures DeliveredUpTo(Drained(t.core, t.sequence), t.sequence) <==> AllLoadsInside(r, inputs)
  {
    StartsSound(r);
    StartsReached(r);
    hide Starts, Sound, Reached, Quiet, Played, Lost, Doomed, Windowed, Drained, DeliveredUpTo, AllLoadsInside;
    EachDetectionOnce(r, inputs, t);
    DeliversAllExactly(t);
    if AllLoadsInside(r, inputs) {
      RunReaches(r, inputs, t);
      forall id: nat | id < t.sequence ensures !Lost(t, id) {
        ReachedLosesNothing(t, id);
      }
    } else {
      var id := OutsideIsFatal(r, inputs, t);
      DoomedIsLost(t, id);
    }
  }
}
