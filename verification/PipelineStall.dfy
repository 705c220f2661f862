/**
 The reorder window holds as many jobs as both decode queues together, but jobs in
 a decoder's hand and jobs already failed also occupy it. Hence the stall below is
 reachable: docs/fragmentation.md says that failures submitted for queue drops
 keep a missing job from stalling the window; the code meets that exactly in the
 runs of `PipelineExact.DeliversAllIffLoadsInside`.
 */
module PipelineStall {
  import opened Completion
  import opened CompletionWindow
  import opened Pipeline
  import opened PipelineRuns

  ghost predicate Reaches(r: Receiver, t: Receiver) {
    exists inputs: seq<Input> :: Played(r, inputs, t)
  }

  lemma {:induction false} RunOn(r: Receiver, inputs: seq<Input>, s: Receiver, more: seq<Input>, t: Receiver)
    requires Played(r, inputs, s) && Played(s, more, t)
    ensures Played(r, inputs + more, t)
    decreases |inputs|
  {
    hide Allowed, Next;
    if inputs == [] {
      assert inputs + more == more;
    } else {
      RunOn(Next(r, inputs[0]), inputs[1..], s, more, t);
      assert (inputs + more)[1..] == inputs[1..] + more;
    }
  }

  lemma ReachesOn(r: Receiver, s: Receiver, t: Receiver)
    requires Reaches(r, s) && Reaches(s, t)
    ensures Reaches(r, t)
  {
    hide Played;
    var inputs: seq<Input> :| Played(r, inputs, s);
    var more: seq<Input> :| Played(s, more, t);
    RunOn(r, inputs, s, more, t);
  }

  lemma ReachesStep(r: Receiver, e: Input)
    requires Allowed(r, e)
    ensures Reaches(r, Next(r, e))
  {
    hide Allowed, Next;
    assert Played(Next(r, e), [], Next(r, e));
    assert [e][1..] == [];
    assert Played(r, [e], Next(r, e));
  }

  /** The first decoder holds job 0; detections 1 .. k have been turned into failures, the last one at p. */
  ghost predicate Dispatching(r: Receiver, k: nat, p: Submit) {
    && Sound(r) && r.core.shared.next == 0 && r.sequence == k + 1 && r.core.workers[DISPATCHER] == p
    && r.core.workers[0].Idle? && r.core.workers[1].Idle? && r.first.hand == [0]
    && k in r.calls
    && forall job | job in r.core.accepted :: if p.Owning? || (p.Returned? && p.ok) then job.id <= k else job.id < k
  }

  /** Steps left until the call returns. */
  function Rank(p: Submit): nat {
    match p
    case Idle => 0
    case Returned(_, _) => 0
    case Checking(_) => 10
    case Loading(_) => 9
    case Ranging(_, _) => 8
    case Claiming(_) => 7
    case Rejecting(_) => 1
    case Owning(_, fields) => if fields < 6 then 6 - fields else 1
  }

  /** The positions of a dispatcher that submits a failure while nothing is popped. */
  predicate OnTheWay(p: Submit, k: nat, window: nat) {
    match p
    case Idle => false
    case Checking(job) => job == Failure(k)
    case Loading(job) => job == Failure(k)
    case Ranging(job, next) => job == Failure(k) && next == 0
    case Claiming(job) => job == Failure(k) && k < window
    case Rejecting(job) => job == Failure(k) && k >= window
    case Owning(job, fields) => job == Failure(k) && fields <= 4 && k < window
    case Returned(job, ok) => job == Failure(k) && ok == (k < window)
  }

  /** One step of the call, while nothing is popped. */
  lemma CallSteps(h: Shared, k: nat, p: Submit, begun: set<nat>, returned: set<nat>)
    requires h.WellFormed() && h.next == 0 && h.generation == GENERATION && ActiveOk(h, p, begun, returned)
    requires OnTheWay(p, k, |h.cells|) && !p.Returned?
    ensures var step := SubmitStep(h, p);
      && step.0.next == 0 && |step.0.cells| == |h.cells| && OnTheWay(step.1, k, |h.cells|) && Rank(step.1) < Rank(p)
      && (step.1.Owning? || (step.1.Returned? && step.1.ok) ==> p.Owning? || p.Claiming?)
      && ((step.1.Owning? && !p.Owning?) || (p.Owning? <==> step.1.Owning? || (step.1.Returned? && step.1.ok)))
  {
    SubmitEffect(h, p);
    if p.InCall() && !p.Checking? {
      RejectedExactlyOutside(h, p, begun, returned);
    }
    hide Store;
  }

  lemma DispatchingParts(r: Receiver, k: nat, p: Submit)
    requires Dispatching(r, k, p)
    ensures Threads(r.core) && r.core.shared.WellFormed() && ActiveOk(r.core.shared, p, r.core.begun, r.core.returned)
  {
    hide ActiveOk;
    assert ActiveOk(r.core.shared, r.core.workers[DISPATCHER], r.core.begun, r.core.returned);
  }

  lemma DispatcherSteps(r: Receiver, k: nat, p: Submit)
    requires Dispatching(r, k, p) && OnTheWay(p, k, |r.core.shared.cells|) && !p.Returned?
    ensures Allowed(r, Step(DISPATCHER)) && r.core.shared.WellFormed()
    ensures var t := Next(r, Step(DISPATCHER)); var q := SubmitStep(r.core.shared, p).1;
      && Dispatching(t, k, q) && OnTheWay(q, k, |r.core.shared.cells|) && Rank(q) < Rank(p)
      && |t.core.shared.cells| == |r.core.shared.cells|
  {
    hide Windowed, Conserved, ActiveOk, SubmitStep;
    DispatchingParts(r, k, p);
    KeepsSound(r, Step(DISPATCHER));
    StepFacts(r.core, k);
    CallSteps(r.core.shared, k, p, r.core.begun, r.core.returned);
  }

  lemma StepFacts(s: System, k: nat)
    requires Threads(s)
    ensures var t := After(s, Advance(DISPATCHER));
      && |t.workers| == 3 && t.workers[0] == s.workers[0] && t.workers[1] == s.workers[1]
      && t.workers[DISPATCHER] == SubmitStep(s.shared, s.workers[DISPATCHER]).1
      && t.shared == SubmitStep(s.shared, s.workers[DISPATCHER]).0
      && forall job | job in t.accepted :: job in s.accepted || (t.workers[DISPATCHER].Owning? && job == t.workers[DISPATCHER].job)
  {
    hide SubmitStep;
  }

  lemma {:induction false} DispatcherFinishes(r: Receiver, k: nat, p: Submit) returns (t: Receiver)
    requires Dispatching(r, k, p) && OnTheWay(p, k, |r.core.shared.cells|)
    ensures Reaches(r, t) && Dispatching(t, k, Returned(Failure(k), k < |r.core.shared.cells|))
    ensures |t.core.shared.cells| == |r.core.shared.cells|
    decreases Rank(p)
  {
    if p.Returned? {
      t := r;
      assert Played(r, [], t);
    } else {
      DispatcherSteps(r, k, p);
      hide Dispatching, Played, SubmitStep, Next;
      var s := Next(r, Step(DISPATCHER));
      ReachesStep(r, Step(DISPATCHER));
      t := DispatcherFinishes(s, k, SubmitStep(r.core.shared, p).1);
      ReachesOn(r, s, t);
    }
  }

  /** A detection that cannot be queued while job k - 1 has been dealt with. */
  lemma NextFailure(r: Receiver, k: nat)
    requires Dispatching(r, k, Returned(Failure(k), true))
    ensures Allowed(r, Detect(false))
    ensures var t := Next(r, Detect(false));
      && Dispatching(t, k + 1, Checking(Failure(k + 1))) && OnTheWay(Checking(Failure(k + 1)), k + 1, |t.core.shared.cells|)
      && |t.core.shared.cells| == |r.core.shared.cells|
  {
    KeepsSound(r, Detect(false));
    hide Sound;
    assert Threads(r.core) by {
      SoundCore(r);
    }
  }

  /** While job 0 is being decoded, the window fills with failures and then turns one away. */
  lemma {:induction false} FillsUp(r: Receiver, k: nat) returns (t: Receiver)
    requires 1 <= k <= |r.core.shared.cells| && Dispatching(r, k, Returned(Failure(k), k < |r.core.shared.cells|))
    ensures Reaches(r, t) && |t.core.shared.cells| == |r.core.shared.cells|
    ensures Dispatching(t, |r.core.shared.cells|, Returned(Failure(|r.core.shared.cells|), false))
    decreases |r.core.shared.cells| - k
  {
    hide Sound, Played, Next, Allowed;
    if k == |r.core.shared.cells| {
      t := r;
      assert Played(r, [], t) by {
        NoInputs(r);
      }
    } else {
      NextFailure(r, k);
      hide Dispatching;
      var s := Next(r, Detect(false));
      ReachesStep(r, Detect(false));
      var u := DispatcherFinishes(s, k + 1, Checking(Failure(k + 1)));
      ReachesOn(r, s, u);
      t := FillsUp(u, k + 1);
      ReachesOn(r, u, t);
    }
  }

  lemma NoInputs(r: Receiver)
    ensures Played(r, [], r)
  {}

  /** Job 0 goes to the first decoder's hand; detection 1 is the first failure. */
  lemma JobZeroTaken(r: Receiver) returns (t: Receiver)
    requires Starts(r) && r.first.room > 0
    ensures Reaches(r, t) && Dispatching(t, 1, Checking(Failure(1)))
    ensures |t.core.shared.cells| == |r.core.shared.cells|
  {
    StartsSound(r);
    var s := Next(r, Detect(true));
    KeepsSound(r, Detect(true));
    ReachesStep(r, Detect(true));
    var u := Next(s, Take(false));
    KeepsSound(s, Take(false));
    ReachesStep(s, Take(false));
    ReachesOn(r, s, u);
    t := Next(u, Detect(false));
    KeepsSound(u, Detect(false));
    ReachesStep(u, Detect(false));
    ReachesOn(r, u, t);
    hide Sound, Reaches;
  }

  /** Whatever the configuration, a run leads to a lost job: after it nothing from it on is ever delivered. */
  lemma StallIsReachable(r: Receiver) returns (t: Receiver)
    requires Starts(r) && r.first.room > 0
    ensures Reaches(r, t) && Sound(t) && Lost(t, r.first.room + r.second.room)
  {
    hide Reaches, Sound, Dispatching, Next, Allowed;
    var n := |r.core.shared.cells|;
    var s := JobZeroTaken(r);
    var u := DispatcherFinishes(s, 1, Checking(Failure(1)));
    ReachesOn(r, s, u);
    t := FillsUp(u, 1);
    ReachesOn(r, u, t);
    TurnedAwayIsLost(t, n);
  }

  lemma TurnedAwayIsLost(t: Receiver, n: nat)
    requires Dispatching(t, n, Returned(Failure(n), false))
    ensures Sound(t) && Lost(t, n)
  {
    hide Windowed, Conserved;
  }
}
