/**
 The reorder window when no id is submitted twice. Then no compare-and-swap fails,
 and a submission is rejected exactly when its id lies a whole window beyond the
 next id it loaded. If moreover every id was within the window when its
 submission began, nothing is rejected, and once all submissions have returned,
 popping empties the window.
 */
module CompletionWindow {
  import opened Limits
  import opened Arithmetic
  import opened Completion

  /** A call with a new id; calls with bad arguments or an old generation are free. */
  predicate Single(s: System, e: Event) {
    e.Call? && Valid(s.shared, e.job) ==> e.job.id !in s.begun && s.first <= e.job.id
  }

  /** A call whose id is within the window. */
  predicate Timely(s: System, e: Event) {
    e.Call? && Valid(s.shared, e.job) ==> e.job.id < s.shared.next + |s.shared.cells|
  }

  predicate InWindow(h: Shared, id: nat) {
    h.next <= id < h.next + |h.cells|
  }

  /** The submitter is inside a valid call for this id. */
  predicate Active(h: Shared, p: Submit) {
    p.InCall() && Valid(h, p.job)
  }

  predicate ActiveOk(h: Shared, p: Submit, begun: set<nat>, returned: set<nat>)
    requires h.WellFormed()
  {
    && (Active(h, p) ==>
          && p.job.id in begun && p.job.id !in returned && h.next <= p.job.id
          && (p.Claiming? || p.Owning? ==> InWindow(h, p.job.id))
          && (p.Claiming? ==> h.cells[h.At(p.job.id)].state == Empty)
          && (p.Ranging? ==> p.next <= h.next))
    && (p.InCall() && !p.Checking? ==> Valid(h, p.job))
  }

  predicate OtherJob(h: Shared, p: Submit, q: Submit) {
    Active(h, p) && Active(h, q) ==> p.job.id != q.job.id
  }

  ghost predicate Written(s: System, i: nat)
    requires s.shared.WellFormed()
  {
    exists w | 0 <= w < |s.workers| :: s.workers[w].Owning? && s.shared.At(s.workers[w].job.id) == i
  }

  ghost predicate WindowCell(s: System, i: nat)
    requires s.shared.WellFormed() && i < |s.shared.cells|
  {
    var cell := s.shared.cells[i];
    && (cell.state == Ready ==> InWindow(s.shared, cell.completion.jobId) && cell.completion.jobId in s.returned)
    && (cell.state == Writing ==> Written(s, i))
  }

  /** A returned job is in its slot, or already popped. */
  predicate Kept(h: Shared, p: Pop, id: nat)
    requires h.WellFormed()
  {
    || id < h.next
    || (p.Advancing? && id == h.next)
    || (h.cells[h.At(id)].state == Ready && h.cells[h.At(id)].completion.jobId == id)
  }

  predicate AdvancingOk(h: Shared, p: Pop, returned: set<nat>)
    requires h.WellFormed()
  {
    p.Advancing? ==> h.next in returned && h.cells[h.At(h.next)].state == Empty
  }

  /** No two submissions share an id. */
  ghost predicate Distinct(s: System) {
    && (forall job | job in s.accepted :: Valid(s.shared, job))
    && (forall job | job in s.called && Valid(s.shared, job) :: job.id in s.begun)
    && (forall a, b | a in s.called && b in s.called && Valid(s.shared, a) && Valid(s.shared, b) && a.id == b.id :: a == b)
  }

  ghost predicate Owned(s: System, job: Job) {
    exists w | 0 <= w < |s.workers| :: s.workers[w].Owning? && s.workers[w].job == job
  }

  /** An accepted job is still being written, or its submission has returned. */
  ghost predicate Settled(s: System) {
    forall job | job in s.accepted :: job.id in s.returned || Owned(s, job)
  }

  ghost predicate Counted(s: System) {
    && (forall id | s.first <= id < s.shared.next :: id in s.returned)
    && (forall id | id in s.returned :: id in s.begun)
  }

  ghost predicate Workers(s: System)
    requires s.shared.WellFormed()
  {
    && (forall w | 0 <= w < |s.workers| :: ActiveOk(s.shared, s.workers[w], s.begun, s.returned))
    && forall v, w | 0 <= v < |s.workers| && 0 <= w < |s.workers| && v != w :: OtherJob(s.shared, s.workers[v], s.workers[w])
  }

  ghost predicate Cells(s: System)
    requires s.shared.WellFormed()
  {
    forall i | 0 <= i < |s.shared.cells| :: WindowCell(s, i)
  }

  ghost predicate Places(s: System)
    requires s.shared.WellFormed()
  {
    forall id | id in s.returned :: Kept(s.shared, s.pop, id)
  }

  ghost predicate Windowed(s: System) {
    Core(s) && Workers(s) && Cells(s) && AdvancingOk(s.shared, s.pop, s.returned) && Places(s) && Counted(s) && Distinct(s) && Settled(s)
  }


  // ---------------------------------------------------------------- residues

  /** Two ids in one window share a slot only if they are equal. */
  lemma OneIdPerSlot(h: Shared, a: nat, b: nat)
    requires |h.cells| > 0 && InWindow(h, a) && InWindow(h, b) && h.At(a) == h.At(b)
    ensures a == b
  {
    var n := |h.cells|;
    SameResidue(a, b, n);
  }

  lemma StartsWindowed(s: System, capacity: nat, first: nat, generation: nat)
    requires Initial(s, capacity, first, generation) && forall w | 0 <= w < |s.workers| :: s.workers[w].Idle?
    ensures Windowed(s)
  {
    InitialCore(s, capacity, first, generation);
    hide Core, Valid;
  }

  // ---------------------------------------------------------------- a call begins

  /** The slot of an id in the window that was not written yet is empty. */
  lemma FreeSlot(s: System, id: nat)
    requires Windowed(s) && id !in s.returned && InWindow(s.shared, id)
    requires forall w | 0 <= w < |s.workers| && s.workers[w].Owning? :: s.workers[w].job.id != id
    ensures s.shared.cells[s.shared.At(id)].state == Empty
  {
    hide Valid, OwnerOk, CellOk, PopOk, OtherJob, Places, PoppedOk;
    var i := s.shared.At(id);
    assert WindowCell(s, i);
    assert CellOk(s.shared, i, s.accepted);
    if s.shared.cells[i].state == Writing {
      var w :| 0 <= w < |s.workers| && s.workers[w].Owning? && s.shared.At(s.workers[w].job.id) == i;
      assert ActiveOk(s.shared, s.workers[w], s.begun, s.returned);
      OneIdPerSlot(s.shared, id, s.workers[w].job.id);
    } else if s.shared.cells[i].state == Ready {
      ReadyPlace(s.shared, i, s.accepted);
      OneIdPerSlot(s.shared, id, s.shared.cells[i].completion.jobId);
    }
  }

  /** A submitter about to claim finds its slot empty. */
  lemma FreeToClaim(s: System, w: nat)
    requires Windowed(s) && w < |s.workers| && !s.workers[w].Owning?
    requires Active(s.shared, s.workers[w]) && InWindow(s.shared, s.workers[w].job.id)
    ensures s.shared.cells[s.shared.At(s.workers[w].job.id)].state == Empty
  {
    assert s.shared.WellFormed();
    hide Valid, OwnerOk, Core, Cells, Places, AdvancingOk;
    assert ActiveOk(s.shared, s.workers[w], s.begun, s.returned);
    forall v | 0 <= v < |s.workers| && s.workers[v].Owning? ensures s.workers[v].job.id != s.workers[w].job.id {
      assert ActiveOk(s.shared, s.workers[v], s.begun, s.returned);
      assert OtherJob(s.shared, s.workers[v], s.workers[w]);
    }
    FreeSlot(s, s.workers[w].job.id);
  }

  lemma ReadyPlace(h: Shared, i: nat, accepted: set<Job>)
    requires h.WellFormed() && i < |h.cells| && CellOk(h, i, accepted) && h.cells[i].state == Ready
    ensures h.At(h.cells[i].completion.jobId) == i
  {}

  lemma FreshIsAhead(s: System, id: nat)
    requires Windowed(s) && id !in s.begun && s.first <= id
    ensures s.shared.next <= id
  {
    hide Core, Workers, Cells, Places;
  }

  lemma CallKeepsWindow(s: System, w: nat, job: Job)
    requires Windowed(s) && Possible(s, Call(w, job)) && Single(s, Call(w, job))
    ensures Windowed(After(s, Call(w, job)))
  {
    var t := After(s, Call(w, job));
    assert Core(t) by {
      KeepsCore(s, Call(w, job));
    }
    if Valid(s.shared, job) {
      FreshIsAhead(s, job.id);
    }
    SettledStays(s, t);
    hide Core, Valid, Settled;
    forall v | 0 <= v < |t.workers| ensures ActiveOk(t.shared, t.workers[v], t.begun, t.returned) {
      assert ActiveOk(s.shared, s.workers[v], s.begun, s.returned);
    }
    forall u, v | 0 <= u < |t.workers| && 0 <= v < |t.workers| && u != v ensures OtherJob(t.shared, t.workers[u], t.workers[v]) {
      assert OtherJob(s.shared, s.workers[u], s.workers[v]);
      assert ActiveOk(s.shared, s.workers[u], s.begun, s.returned);
      assert ActiveOk(s.shared, s.workers[v], s.begun, s.returned);
    }
    forall i | 0 <= i < |t.shared.cells| ensures WindowCell(t, i) {
      assert WindowCell(s, i);
      if s.shared.cells[i].state == Writing {
        var v :| 0 <= v < |s.workers| && s.workers[v].Owning? && s.shared.At(s.workers[v].job.id) == i;
        assert t.workers[v].Owning? && t.shared.At(t.workers[v].job.id) == i;
      }
    }
  }

  // ---------------------------------------------------------------- a submitter advances

  predicate EffectOk(h: Shared, p: Submit, k: Shared, r: Submit)
    requires h.WellFormed() && k.WellFormed()
  {
    && |k.cells| == |h.cells| && k.next == h.next && k.generation == h.generation
    && (forall i | 0 <= i < |h.cells| :: (!p.InCall() || i != h.At(p.job.id)) ==> k.cells[i] == h.cells[i])
    && (p.InCall() ==> !r.Idle? && r.job == p.job)
    && (!p.InCall() ==> k == h && r == p)
  }

  lemma SubmitEffect(h: Shared, p: Submit)
    requires h.WellFormed()
    ensures SubmitStep(h, p).0.WellFormed() && EffectOk(h, p, SubmitStep(h, p).0, SubmitStep(h, p).1)
  {
    hide Valid, Store;
  }

  /**
   The range test alone decides: a valid submission is turned away exactly when its
   id is a whole window beyond the next id it loaded, however stale that load is.
   The exchange never fails.
   */
  lemma RejectedExactlyOutside(h: Shared, p: Submit, begun: set<nat>, returned: set<nat>)
    requires h.WellFormed() && ActiveOk(h, p, begun, returned) && Active(h, p)
    ensures var step := SubmitStep(h, p);
      && (p.Ranging? ==> if p.job.id >= p.next + |h.cells| then step.1 == Rejecting(p.job) else step.1 == Claiming(p.job))
      && (p.Claiming? ==> step.1 == Owning(p.job, 0))
      && (step.1.Rejecting? ==> p.Ranging?)
  {
    hide Acceptable, Store;
  }

  lemma AdvanceKeepsActive(h: Shared, p: Submit, begun: set<nat>, returned: set<nat>)
    requires h.WellFormed() && ActiveOk(h, p, begun, returned)
    requires Active(h, p) && InWindow(h, p.job.id) && !p.Owning? ==> h.cells[h.At(p.job.id)].state == Empty
    ensures var step := SubmitStep(h, p);
      step.0.WellFormed() && ActiveOk(step.0, step.1, begun, if p.Owning? && step.1.Returned? then returned + {step.1.job.id} else returned)
  {
    hide Acceptable, Store;
  }

  lemma AdvanceKeepsOtherActive(h: Shared, p: Submit, q: Submit, begun: set<nat>, returned: set<nat>)
    requires h.WellFormed() && ActiveOk(h, p, begun, returned) && ActiveOk(h, q, begun, returned) && OtherJob(h, p, q)
    ensures var step := SubmitStep(h, p);
      step.0.WellFormed() && ActiveOk(step.0, q, begun, if p.Owning? && step.1.Returned? then returned + {step.1.job.id} else returned)
  {
    SubmitEffect(h, p);
    if Active(h, p) && Active(h, q) && InWindow(h, p.job.id) && InWindow(h, q.job.id) && h.At(p.job.id) == h.At(q.job.id) {
      OneIdPerSlot(h, p.job.id, q.job.id);
    }
    hide Acceptable, Store;
  }

  lemma AdvanceKeepsActives(s: System, w: nat)
    requires Windowed(s) && w < |s.workers|
    ensures Runnable(AfterAdvance(s, w)) && Workers(AfterAdvance(s, w))
  {
    var t := AfterAdvance(s, w);
    SubmitEffect(s.shared, s.workers[w]);
    if Active(s.shared, s.workers[w]) && InWindow(s.shared, s.workers[w].job.id) && !s.workers[w].Owning? {
      FreeToClaim(s, w);
    }
    hide Core, Cells, Places, Counted, AdvancingOk;
    AdvanceKeepsActive(s.shared, s.workers[w], s.begun, s.returned);
    hide SubmitStep, ActiveOk, Valid, Shared.WellFormed;
    forall v | 0 <= v < |t.workers| ensures ActiveOk(t.shared, t.workers[v], t.begun, t.returned) {
      if v != w {
        AdvanceKeepsOtherActive(s.shared, s.workers[w], s.workers[v], s.begun, s.returned);
      }
    }
    forall u, v | 0 <= u < |t.workers| && 0 <= v < |t.workers| && u != v ensures OtherJob(t.shared, t.workers[u], t.workers[v]) {
      assert OtherJob(s.shared, s.workers[u], s.workers[v]);
      SameValid(s.shared, t.shared, t.workers[u]);
      SameValid(s.shared, t.shared, t.workers[v]);
    }
  }

  lemma SameValid(h: Shared, k: Shared, p: Submit)
    requires h.generation == k.generation
    ensures Active(h, p) <==> Active(k, p)
    ensures !p.Idle? ==> (Valid(h, p.job) <==> Valid(k, p.job))
  {}

  lemma AdvanceKeepsCells(s: System, w: nat, i: nat)
    requires Windowed(s) && w < |s.workers| && i < |s.shared.cells|
    ensures var t := AfterAdvance(s, w); Runnable(t) && i < |t.shared.cells| && WindowCell(t, i)
  {
    var p := s.workers[w];
    var t := AfterAdvance(s, w);
    SubmitEffect(s.shared, p);
    assert WindowCell(s, i) && ActiveOk(s.shared, p, s.begun, s.returned) && OwnerOk(s.shared, p, s.accepted);
    CellAfter(s.shared, p, s.accepted, i);
    hide Core, Workers, Places, Counted, AdvancingOk, Valid, ActiveOk, OwnerOk, SubmitStep;
    if t.shared.cells[i].state == Writing && s.shared.cells[i].state == Writing {
      var v :| 0 <= v < |s.workers| && s.workers[v].Owning? && s.shared.At(s.workers[v].job.id) == i;
      assert t.workers[v].Owning? && t.shared.At(t.workers[v].job.id) == i;
    } else if t.shared.cells[i].state == Writing {
      assert t.workers[w].Owning? && t.shared.At(t.workers[w].job.id) == i;
    }
  }

  /** What a submitter's step can do to slot i. */
  lemma CellAfter(h: Shared, p: Submit, accepted: set<Job>, i: nat)
    requires h.WellFormed() && OwnerOk(h, p, accepted) && i < |h.cells|
    ensures |SubmitStep(h, p).0.cells| == |h.cells|
    ensures var step := SubmitStep(h, p);
      var c := step.0.cells[i];
      && (c.state == Writing && h.cells[i].state != Writing ==> step.1.Owning? && h.At(step.1.job.id) == i)
      && (step.1.Owning? ==> p.Claiming? || p.Owning?)
      && (p.Owning? && !step.1.Owning? ==> step.1.Returned? && h.cells[h.At(p.job.id)].state == Writing)
      && (c.state == Writing && h.cells[i].state == Writing && p.Owning? && h.At(p.job.id) == i ==>
            step.1.Owning? && step.1.job == p.job)
      && (c.state == Ready && h.cells[i].state != Ready ==>
            p.Owning? && step.1.Returned? && c.completion.jobId == p.job.id && h.At(p.job.id) == i)
      && (c.state == Ready && h.cells[i].state == Ready ==> c == h.cells[i])
      && (h.cells[i].state == Ready ==> c.state == Ready)
  {
    hide Acceptable, Valid, Store;
    if p.Owning? && p.fields == Stores(p.job) && i == h.At(p.job.id) {
      AllStored(h.cells[i].completion, p.job);
    }
  }

  lemma AdvanceKeepsAdvancing(s: System, w: nat)
    requires Windowed(s) && w < |s.workers|
    ensures var t := AfterAdvance(s, w); Runnable(t) && AdvancingOk(t.shared, t.pop, t.returned)
  {
    var p, t := s.workers[w], AfterAdvance(s, w);
    SubmitEffect(s.shared, p);
    assert ActiveOk(s.shared, p, s.begun, s.returned) && OwnerOk(s.shared, p, s.accepted);
    CellAfter(s.shared, p, s.accepted, s.shared.At(s.shared.next));
    hide Core, Workers, Places, Counted, Cells, Valid, OwnerOk, SubmitStep;
    if s.pop.Advancing? && Active(s.shared, p) && InWindow(s.shared, p.job.id) && s.shared.At(p.job.id) == s.shared.At(s.shared.next) {
      OneIdPerSlot(s.shared, p.job.id, s.shared.next);
    }
  }

  lemma AdvanceKeepsPlace(s: System, w: nat, id: nat)
    requires Windowed(s) && w < |s.workers| && id in AfterAdvance(s, w).returned
    ensures var t := AfterAdvance(s, w); Runnable(t) && Kept(t.shared, t.pop, id)
  {
    var p, t := s.workers[w], AfterAdvance(s, w);
    SubmitEffect(s.shared, p);
    assert ActiveOk(s.shared, p, s.begun, s.returned) && OwnerOk(s.shared, p, s.accepted);
    CellAfter(s.shared, p, s.accepted, s.shared.At(id));
    if p.Owning? && t.workers[w].Returned? {
      Publishes(s.shared, p, s.accepted);
    }
    hide Core, Workers, Counted, Cells, Valid, OwnerOk, SubmitStep, ActiveOk, AdvancingOk;
  }

  lemma Publishes(h: Shared, p: Submit, accepted: set<Job>)
    requires h.WellFormed() && OwnerOk(h, p, accepted) && p.Owning? && SubmitStep(h, p).1.Returned?
    ensures var c := SubmitStep(h, p).0.cells[h.At(p.job.id)]; c.state == Ready && c.completion.jobId == p.job.id
    ensures SubmitStep(h, p).1.job == p.job
  {
    hide Acceptable, Valid, Store;
    AllStored(h.cells[h.At(p.job.id)].completion, p.job);
  }

  lemma ClaimsOnly(h: Shared, p: Submit)
    requires h.WellFormed()
    ensures SubmitStep(h, p).1.Owning? ==> (p.Claiming? || p.Owning?) && SubmitStep(h, p).1.job == p.job
  {
    hide Acceptable, Store;
  }

  lemma AdvanceKeepsSettled(s: System, w: nat)
    requires Runnable(s) && Settled(s) && w < |s.workers|
    ensures Settled(AfterAdvance(s, w))
  {
    var p, t := s.workers[w], AfterAdvance(s, w);
    SubmitEffect(s.shared, p);
    if p.Owning? {
      OwnerLeaves(s.shared, p);
    }
    hide SubmitStep;
    forall job | job in t.accepted && job.id !in t.returned ensures Owned(t, job) {
      if job in s.accepted {
        var v :| 0 <= v < |s.workers| && s.workers[v].Owning? && s.workers[v].job == job;
        assert t.workers[v].Owning? && t.workers[v].job == job;
      } else {
        assert t.workers[w].Owning? && t.workers[w].job == job;
      }
    }
  }

  /** An owner stays one until it has published. */
  lemma OwnerLeaves(h: Shared, p: Submit)
    requires h.WellFormed() && p.Owning?
    ensures var q := SubmitStep(h, p).1; (q.Owning? || q.Returned?) && q.job == p.job
  {
    hide Store;
  }

  lemma SettledStays(s: System, t: System)
    requires Settled(s) && t.accepted == s.accepted && t.returned == s.returned && |t.workers| == |s.workers|
    requires forall w | 0 <= w < |s.workers| && s.workers[w].Owning? :: t.workers[w] == s.workers[w]
    ensures Settled(t)
  {
    forall job | job in t.accepted && job.id !in t.returned ensures Owned(t, job) {
      var v :| 0 <= v < |s.workers| && s.workers[v].Owning? && s.workers[v].job == job;
      assert t.workers[v].Owning? && t.workers[v].job == job;
    }
  }

  lemma AdvanceKeepsWindow(s: System, w: nat)
    requires Windowed(s) && w < |s.workers|
    ensures Windowed(AfterAdvance(s, w))
  {
    var t := AfterAdvance(s, w);
    AdvanceKeepsCore(s, w);
    AdvanceKeepsActives(s, w);
    AdvanceKeepsAdvancing(s, w);
    AdvanceKeepsSettled(s, w);
    SubmitEffect(s.shared, s.workers[w]);
    assert ActiveOk(s.shared, s.workers[w], s.begun, s.returned);
    ClaimsOnly(s.shared, s.workers[w]);
    DistinctStays(s, t);
    hide Core, Workers, SubmitStep, AdvancingOk, WindowCell, Kept, Distinct, Settled;
    forall i | 0 <= i < |t.shared.cells| ensures WindowCell(t, i) {
      AdvanceKeepsCells(s, w, i);
    }
    forall id | id in t.returned ensures Kept(t.shared, t.pop, id) {
      AdvanceKeepsPlace(s, w, id);
    }
  }

  // ---------------------------------------------------------------- the consumer advances

  lemma ConsumeEffect(h: Shared, p: Pop)
    requires h.WellFormed() && (p.Reading? ==> |p.copy.payload| == MAX_PAYLOAD) && (p.Advancing? ==> p.next == h.next)
    ensures var step := PopStep(h, p);
      && |step.0.cells| == |h.cells| && step.0.WellFormed() && step.0.generation == h.generation && step.0.rejected == h.rejected
      && step.0.next == (if p.Advancing? then h.next + 1 else h.next)
      && (forall i | 0 <= i < |h.cells| && !(p.Clearing? && i == h.At(p.next)) :: step.0.cells[i] == h.cells[i])
      && (p.Clearing? ==> step.0.cells[h.At(p.next)].state == Empty)
      && (step.1.Advancing? <==> p.Clearing?)
  {
    hide Load;
  }

  lemma ConsumeKeepsActive(s: System, w: nat)
    requires Windowed(s) && w < |s.workers|
    ensures var t := AfterConsume(s); Runnable(t) && ActiveOk(t.shared, t.workers[w], t.begun, t.returned)
  {
    var p, t := s.workers[w], AfterConsume(s);
    ConsumeEffect(s.shared, s.pop);
    assert Runnable(t) by {
      ConsumeKeepsCore(s);
    }
    assert ActiveOk(s.shared, p, s.begun, s.returned);
    hide Core, Workers, Cells, Places, Counted, Valid, PopStep;
    if Active(s.shared, p) && p.Claiming? {
      assert s.pop.Clearing? ==> t.shared.cells[s.shared.At(s.pop.next)].state == Empty;
      assert t.shared.cells[s.shared.At(p.job.id)].state == Empty;
    }
  }

  lemma ConsumeKeepsCells(s: System, i: nat)
    requires Windowed(s) && i < |s.shared.cells|
    ensures var t := AfterConsume(s); Runnable(t) && i < |t.shared.cells| && WindowCell(t, i)
  {
    var t := AfterConsume(s);
    ConsumeEffect(s.shared, s.pop);
    assert Runnable(t) by {
      ConsumeKeepsCore(s);
    }
    assert WindowCell(s, i) && CellOk(s.shared, i, s.accepted);
    hide Core, Workers, Places, Counted, Valid, PopStep;
    if s.shared.cells[i].state == Ready {
      ReadyPlace(s.shared, i, s.accepted);
    } else if s.shared.cells[i].state == Writing {
      var v :| 0 <= v < |s.workers| && s.workers[v].Owning? && s.shared.At(s.workers[v].job.id) == i;
      assert t.workers[v].Owning? && t.shared.At(t.workers[v].job.id) == i;
    }
  }

  lemma ConsumeKeepsPlace(s: System, id: nat)
    requires Windowed(s) && id in s.returned
    ensures var t := AfterConsume(s); Runnable(t) && Kept(t.shared, t.pop, id)
  {
    var t := AfterConsume(s);
    ConsumeEffect(s.shared, s.pop);
    assert Runnable(t) by {
      ConsumeKeepsCore(s);
    }
    assert PopOk(s.shared, s.pop, s.accepted) && Kept(s.shared, s.pop, id);
    hide Core, Workers, Places, Counted, Cells, Valid, PopStep, Genuine, Copied;
  }

  /** Clearing the next slot touches no other job of the window. */
  lemma ConsumeKeepsAdvancing(s: System)
    requires Windowed(s)
    ensures var t := AfterConsume(s); Runnable(t) && AdvancingOk(t.shared, t.pop, t.returned)
  {
    var t := AfterConsume(s);
    ConsumeEffect(s.shared, s.pop);
    assert Runnable(t) by {
      ConsumeKeepsCore(s);
    }
    assert PopOk(s.shared, s.pop, s.accepted);
    assert s.pop.Clearing? ==> WindowCell(s, s.shared.At(s.pop.next));
    hide Core, Workers, Places, Counted, Valid, PopStep, Genuine, Copied;
  }

  lemma ConsumeKeepsCounted(s: System)
    requires Windowed(s)
    ensures Counted(AfterConsume(s))
  {
    ConsumeEffect(s.shared, s.pop);
    hide Core, Workers, Cells, Places, PopStep;
    assert AdvancingOk(s.shared, s.pop, s.returned);
  }

  lemma ConsumeKeepsWindow(s: System)
    requires Windowed(s)
    ensures Windowed(AfterConsume(s)) && AfterConsume(s).shared.rejected == s.shared.rejected
  {
    var t := AfterConsume(s);
    ConsumeKeepsCore(s);
    ConsumeEffect(s.shared, s.pop);
    ConsumeKeepsAdvancing(s);
    ConsumeKeepsCounted(s);
    DistinctStays(s, t);
    SettledStays(s, t);
    hide Core, PopStep, AdvancingOk, WindowCell, Kept, Counted, ActiveOk, Distinct, Settled;
    forall w | 0 <= w < |t.workers| ensures ActiveOk(t.shared, t.workers[w], t.begun, t.returned) {
      ConsumeKeepsActive(s, w);
    }
    forall u, v | 0 <= u < |t.workers| && 0 <= v < |t.workers| && u != v ensures OtherJob(t.shared, t.workers[u], t.workers[v]) {
      assert OtherJob(s.shared, s.workers[u], s.workers[v]);
    }
    forall i | 0 <= i < |t.shared.cells| ensures WindowCell(t, i) {
      ConsumeKeepsCells(s, i);
    }
    forall id | id in t.returned ensures Kept(t.shared, t.pop, id) {
      ConsumeKeepsPlace(s, id);
    }
  }

  // ---------------------------------------------------------------- whole runs

  lemma DistinctStays(s: System, t: System)
    requires Distinct(s) && s.called == t.called && s.begun == t.begun && s.shared.generation == t.shared.generation
    requires forall job | job in t.accepted :: job in s.accepted || Valid(s.shared, job)
    ensures Distinct(t)
  {
    hide Acceptable;
  }

  /** A popped job is the one submission that had its id. */
  lemma ExactContents(s: System, job: Job)
    requires Windowed(s) && job in s.called && Valid(s.shared, job) && s.first <= job.id < s.shared.next
    ensures s.popped[job.id - s.first] == job
  {
    hide Workers, Cells, Places, AdvancingOk, Counted, WorkersOk, CellsOk, PopOk, Valid;
    PoppedJob(s, job.id);
    assert s.popped[job.id - s.first] in s.called;
  }

  lemma KeepsWindow(s: System, e: Event)
    requires Windowed(s) && Possible(s, e) && Single(s, e)
    ensures Windowed(After(s, e))
  {
    hide Windowed, AfterAdvance, AfterConsume, SubmitStep, PopStep;
    match e
    case Call(w, job) => CallKeepsWindow(s, w, job);
    case Advance(w) => AdvanceKeepsWindow(s, w);
    case Consume => ConsumeKeepsWindow(s);
  }

  /** A submitter whose id was within the window when it began. */
  predicate OnTime(h: Shared, p: Submit, returned: set<nat>) {
    && (Active(h, p) ==>
          && p.job.id < h.next + |h.cells| && !p.Rejecting?
          && (p.Ranging? ==> p.job.id < p.next + |h.cells|))
    && (p.Returned? && Valid(h, p.job) ==> p.ok && p.job.id in returned)
  }

  ghost predicate AllOnTime(s: System) {
    forall w | 0 <= w < |s.workers| :: OnTime(s.shared, s.workers[w], s.returned)
  }

  lemma AdvanceOnTime(h: Shared, p: Submit, begun: set<nat>, returned: set<nat>)
    requires h.WellFormed() && ActiveOk(h, p, begun, returned) && OnTime(h, p, returned)
    ensures var step := SubmitStep(h, p);
      && OnTime(step.0, step.1, if p.Owning? && step.1.Returned? then returned + {step.1.job.id} else returned)
      && step.0.rejected == h.rejected
  {
    hide Acceptable, Store;
  }

  lemma KeepsOnTime(s: System, e: Event)
    requires Windowed(s) && AllOnTime(s) && Possible(s, e) && Timely(s, e)
    ensures AllOnTime(After(s, e)) && After(s, e).shared.rejected == s.shared.rejected
  {
    if e.Advance? {
      SubmitEffect(s.shared, s.workers[e.worker]);
      assert ActiveOk(s.shared, s.workers[e.worker], s.begun, s.returned);
      assert OnTime(s.shared, s.workers[e.worker], s.returned);
      AdvanceOnTime(s.shared, s.workers[e.worker], s.begun, s.returned);
    } else if e.Consume? {
      assert PopOk(s.shared, s.pop, s.accepted);
      ConsumeEffect(s.shared, s.pop);
    }
    hide Windowed, SubmitStep, PopStep, Valid;
    var t := After(s, e);
    forall w | 0 <= w < |t.workers| ensures OnTime(t.shared, t.workers[w], t.returned) {
      assert OnTime(s.shared, s.workers[w], s.returned);
      SameValid(s.shared, t.shared, s.workers[w]);
    }
  }

  /** A run in which no id is called twice and every id is called within the window. */
  ghost predicate OrdinaryRun(s: System, events: seq<Event>, t: System)
    decreases |events|
  {
    if events == [] then t == s
    else
      && Runnable(s) && Possible(s, events[0]) && Single(s, events[0]) && Timely(s, events[0])
      && OrdinaryRun(After(s, events[0]), events[1..], t)
  }

  /**
   Under any interleaving nothing is rejected: every valid submission that has
   returned reported success, and its job is popped or waits in its slot.
   */
  lemma {:induction false} NothingIsRejected(s: System, events: seq<Event>, t: System)
    requires Windowed(s) && AllOnTime(s) && OrdinaryRun(s, events, t)
    ensures Windowed(t) && AllOnTime(t) && t.shared.rejected == s.shared.rejected
    ensures forall w | 0 <= w < |t.workers| && t.workers[w].Returned? && Valid(t.shared, t.workers[w].job) ::
      t.workers[w].ok && Kept(t.shared, t.pop, t.workers[w].job.id)
    decreases |events|
  {
    hide Core, Cells, AfterAdvance, AfterConsume, Kept, Valid, Counted, AdvancingOk, OnTime, Workers;
    if events != [] {
      KeepsWindow(s, events[0]);
      KeepsOnTime(s, events[0]);
      NothingIsRejected(After(s, events[0]), events[1..], t);
    } else {
      ReturnedOk(t);
    }
  }

  lemma ReturnedOk(t: System)
    requires Windowed(t) && AllOnTime(t)
    ensures forall w | 0 <= w < |t.workers| && t.workers[w].Returned? && Valid(t.shared, t.workers[w].job) ::
      t.workers[w].ok && Kept(t.shared, t.pop, t.workers[w].job.id)
  {
    hide Core, Cells, Kept, Valid, Counted, AdvancingOk, Workers;
    forall w | 0 <= w < |t.workers| && t.workers[w].Returned? && Valid(t.shared, t.workers[w].job)
      ensures t.workers[w].ok && t.workers[w].job.id in t.returned
    {
      assert OnTime(t.shared, t.workers[w], t.returned);
    }
  }

  predicate OnlyOwner(s: System, w: nat, i: nat)
    requires |s.shared.cells| > 0 && w < |s.workers|
  {
    && s.workers[w].Owning? && s.shared.At(s.workers[w].job.id) == i
    && forall v | 0 <= v < |s.workers| && v != w && s.workers[v].Owning? :: s.shared.At(s.workers[v].job.id) != i
  }

  /** A slot in Writing has exactly one owner, and the consumer is not at it. */
  lemma OneOwner(s: System, i: nat)
    requires Windowed(s) && i < |s.shared.cells| && s.shared.cells[i].state == Writing
    ensures exists w :: 0 <= w < |s.workers| && OnlyOwner(s, w, i)
    ensures s.pop.Seen? || s.pop.Reading? || s.pop.Clearing? ==> s.shared.At(s.pop.next) != i
  {
    assert WindowCell(s, i);
    assert PopOk(s.shared, s.pop, s.accepted);
    hide Cells, Places, Counted, AdvancingOk, OwnerOk, CellOk, Valid, Workers, CellsOk, Genuine, Copied, PoppedOk;
    var w :| 0 <= w < |s.workers| && s.workers[w].Owning? && s.shared.At(s.workers[w].job.id) == i;
    forall v | 0 <= v < |s.workers| && v != w && s.workers[v].Owning? ensures s.shared.At(s.workers[v].job.id) != i {
      assert OwnSlots(s.shared, s.workers[if v < w then v else w], s.workers[if v < w then w else v]);
    }
    assert OnlyOwner(s, w, i);
  }

  // ---------------------------------------------------------------- draining

  /** The consumer alone takes n steps. */
  ghost function Consumed(s: System, n: nat): System
    requires Windowed(s)
    ensures Windowed(Consumed(s, n))
  {
    if n == 0 then s else
      ConsumeKeepsWindow(Consumed(s, n - 1));
      AfterConsume(Consumed(s, n - 1))
  }

  lemma {:induction false} ConsumedTwice(s: System, m: nat, n: nat)
    requires Windowed(s)
    ensures Consumed(Consumed(s, m), n) == Consumed(s, m + n)
  {
    hide Windowed, AfterConsume;
    if n > 0 {
      ConsumedTwice(s, m, n - 1);
    }
  }

  predicate SameHistory(s: System, t: System) {
    t.begun == s.begun && t.returned == s.returned && t.first == s.first && t.workers == s.workers
  }

  /** The consumer has taken its first three steps and `fields` loads. */
  predicate Copying(s: System, t: System, fields: nat) {
    t.shared == s.shared && SameHistory(s, t) && t.pop.Reading? && t.pop.next == s.shared.next && t.pop.fields == fields
  }

  lemma StartsCopying(s: System)
    requires Windowed(s) && s.pop.Rest? && s.shared.next in s.returned
    ensures Copying(s, Consumed(s, 3), 0)
  {
    assert Kept(s.shared, s.pop, s.shared.next);
    hide Windowed, AfterConsume;
    assert Consumed(s, 0) == s;
    assert Consumed(s, 1) == AfterConsume(s);
    assert Consumed(s, 2) == AfterConsume(Consumed(s, 1));
    FirstSteps(s);
  }

  lemma FirstSteps(s: System)
    requires Runnable(s) && s.pop.Rest?
    requires s.shared.cells[s.shared.At(s.shared.next)].state == Ready
    requires s.shared.cells[s.shared.At(s.shared.next)].completion.jobId == s.shared.next
    ensures Runnable(AfterConsume(s)) && Runnable(AfterConsume(AfterConsume(s)))
    ensures Copying(s, AfterConsume(AfterConsume(AfterConsume(s))), 0)
  {
    hide JobOf;
  }

  lemma {:induction false} KeepsCopying(s: System, k: nat)
    requires Windowed(s) && s.pop.Rest? && s.shared.next in s.returned && k <= LOADS
    ensures Copying(s, Consumed(s, 3 + k), k)
  {
    if k == 0 {
      StartsCopying(s);
    } else {
      KeepsCopying(s, k - 1);
      assert Windowed(Consumed(s, 3 + (k - 1))) ==> Runnable(Consumed(s, 3 + (k - 1)));
      hide Windowed, AfterConsume, Copying, Runnable;
      CopyStep(s, Consumed(s, 3 + (k - 1)), k - 1);
      assert 3 + k == (3 + (k - 1)) + 1;
    }
  }

  lemma CopyStep(s: System, t: System, k: nat)
    requires Runnable(t) && Copying(s, t, k) && k < LOADS
    ensures Copying(s, AfterConsume(t), k + 1)
  {
    hide Load;
  }

  /** One whole pop. */
  const POP_STEPS: nat := LOADS + 6

  lemma PopCompletes(s: System)
    requires Windowed(s) && s.pop.Rest? && s.shared.next in s.returned
    ensures var t := Consumed(s, POP_STEPS); SameHistory(s, t) && t.pop.Rest? && t.shared.next == s.shared.next + 1
  {
    KeepsCopying(s, LOADS);
    var t := Consumed(s, 3 + LOADS);
    assert Consumed(s, 4 + LOADS) == AfterConsume(t);
    assert Consumed(s, 5 + LOADS) == AfterConsume(Consumed(s, 4 + LOADS));
    assert Consumed(s, POP_STEPS) == AfterConsume(Consumed(s, 5 + LOADS));
    LastSteps(s, t);
  }

  lemma LastSteps(s: System, t: System)
    requires Runnable(t) && Copying(s, t, LOADS)
    ensures Runnable(AfterConsume(t)) && Runnable(AfterConsume(AfterConsume(t)))
    ensures var u := AfterConsume(AfterConsume(AfterConsume(t)));
      SameHistory(s, u) && u.pop.Rest? && u.shared.next == s.shared.next + 1
  {
    hide JobOf;
  }

  lemma {:induction false} Drains(s: System, m: nat)
    requires Windowed(s) && s.pop.Rest? && s.shared.next <= m && forall id | s.shared.next <= id < m :: id in s.returned
    ensures var t := Consumed(s, POP_STEPS * (m - s.shared.next)); SameHistory(s, t) && t.pop.Rest? && t.shared.next == m
    decreases m - s.shared.next
  {
    hide Windowed, AfterConsume;
    if s.shared.next < m {
      PopCompletes(s);
      var t := Consumed(s, POP_STEPS);
      Drains(t, m);
      ConsumedTwice(s, POP_STEPS, POP_STEPS * (m - t.shared.next));
      assert POP_STEPS + POP_STEPS * (m - t.shared.next) == POP_STEPS * (m - s.shared.next);
    }
  }

  lemma PoppedReturned(s: System, id: nat)
    requires Windowed(s) && s.first <= id < s.shared.next
    ensures id in s.returned
  {
    hide Core, Workers, Cells, Places, AdvancingOk;
  }

  /** The system after as many pops as there are jobs left before m. */
  ghost function Drained(s: System, m: nat): System
    requires Windowed(s) && s.shared.next <= m
  {
    Consumed(s, POP_STEPS * (m - s.shared.next))
  }

  /** Exactly the jobs first .. m - 1 were popped, in order. */
  predicate DeliveredUpTo(s: System, m: nat) {
    && s.shared.next == m == s.first + |s.popped|
    && forall i | 0 <= i < |s.popped| :: s.popped[i].id == s.first + i && s.popped[i] in s.accepted
  }

  /** Once the jobs first .. m - 1 have all been submitted with success, popping delivers every one and leaves no gap. */
  lemma EmptiesTheWindow(s: System, m: nat)
    requires Windowed(s) && s.pop.Rest? && s.first <= m && forall id :: id in s.returned <==> s.first <= id < m
    ensures s.shared.next <= m && DeliveredUpTo(Drained(s, m), m) && Drained(s, m).first == s.first
  {
    assert s.first <= s.shared.next by {
      PoppedInOrder(s);
    }
    if s.shared.next > m {
      PoppedReturned(s, m);
    }
    hide Windowed, Consumed;
    Drains(s, m);
    PoppedInOrder(Drained(s, m));
  }

  lemma PoppedInOrder(s: System)
    requires Windowed(s)
    ensures DeliveredUpTo(s, s.shared.next)
  {
    hide Workers, Cells, WorkersOk, CellsOk, PopOk, AdvancingOk, Kept;
  }
}
