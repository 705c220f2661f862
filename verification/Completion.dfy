/**
 The reorder window of src/platform/completion.c, one step per atomic load,
 store or compare-and-swap and one per field read or written, so that any
 interleaving of several submitters and one consumer is a sequence of steps.

 `KeepsCore` asks nothing of the submitters: whatever ids they send, in whatever
 order, twice or never, the consumer receives first, first + 1, ... each with the
 contents of an accepted submission.
 */
module Completion {
  import opened Limits
  import opened Bits

  const MAX_CAPACITY: nat := 16

  datatype CellState = Empty | Writing | Ready

  datatype Completion = Completion(jobId: nat, generation: nat, success: bool, length: nat, payload: seq<Byte>)

  datatype Cell = Cell(state: CellState, completion: Completion)

  datatype Shared = Shared(cells: seq<Cell>, next: nat, generation: nat, rejected: nat) {
    predicate WellFormed() {
      0 < |cells| <= MAX_CAPACITY && forall i | 0 <= i < |cells| :: |cells[i].completion.payload| == MAX_PAYLOAD
    }

    /** The cell that a job uses. */
    function At(id: nat): (i: nat)
      requires |cells| > 0
      ensures i < |cells|
    {
      id % |cells|
    }
  }

  /** One terminal result. */
  datatype Job = Job(id: nat, generation: nat, success: bool, payload: seq<Byte>)

  predicate Acceptable(job: Job) {
    if job.success then 0 < |job.payload| <= MAX_PAYLOAD else job.payload == []
  }

  /** The submission passes the argument and generation checks. */
  predicate Valid(h: Shared, job: Job) {
    Acceptable(job) && job.generation == h.generation
  }

  // ---------------------------------------------------------------- submit

  /** Where a submitter stands inside `rtnc_completion_submit`. */
  datatype Submit =
    | Idle
    | Checking(job: Job)
    | Loading(job: Job)
    | Ranging(job: Job, next: nat)
    | Claiming(job: Job)
    | Rejecting(job: Job)
    | Owning(job: Job, fields: nat)
    | Returned(job: Job, ok: bool)
  {
    predicate InCall() {
      !Idle? && !Returned?
    }
  }

  /** Number of stores that fill a slot: four fields, then the payload bytes. */
  function Stores(job: Job): nat {
    4 + |job.payload|
  }

  function Store(c: Completion, job: Job, field: nat): (r: Completion)
    requires field < Stores(job)
    ensures |r.payload| == |c.payload|
  {
    if field == 0 then c.(jobId := job.id)
    else if field == 1 then c.(generation := job.generation)
    else if field == 2 then c.(success := job.success)
    else if field == 3 then c.(length := |job.payload|)
    else if field - 4 < |c.payload| then c.(payload := c.payload[field - 4 := job.payload[field - 4]])
    else c
  }

  function SetCell(h: Shared, i: nat, cell: Cell): Shared
    requires i < |h.cells|
  {
    h.(cells := h.cells[i := cell])
  }

  /** The next step of a submitter. */
  function SubmitStep(h: Shared, p: Submit): (Shared, Submit)
    requires h.WellFormed()
  {
    match p
    case Idle => (h, p)
    case Returned(_, _) => (h, p)
    case Checking(job) =>
      if Valid(h, job) then (h, Loading(job)) else (h, Returned(job, false))
    case Loading(job) => (h, Ranging(job, h.next))
    case Ranging(job, next) =>
      if job.id < next || job.id - next >= |h.cells| then (h, Rejecting(job)) else (h, Claiming(job))
    case Claiming(job) =>
      var i := h.At(job.id);
      if h.cells[i].state == Empty then (SetCell(h, i, h.cells[i].(state := Writing)), Owning(job, 0)) else (h, Rejecting(job))
    case Rejecting(job) => (h.(rejected := h.rejected + 1), Returned(job, false))
    case Owning(job, fields) =>
      var i := h.At(job.id);
      if fields < Stores(job) then
        (SetCell(h, i, h.cells[i].(completion := Store(h.cells[i].completion, job, fields))), Owning(job, fields + 1))
      else
        (SetCell(h, i, h.cells[i].(state := Ready)), Returned(job, true))
  }

  // ---------------------------------------------------------------- pop

  /** Where the consumer stands inside `rtnc_completion_pop`. */
  datatype Pop =
    | Rest(ok: bool, result: Completion)
    | Loaded(next: nat)
    | Seen(next: nat)
    | Reading(next: nat, copy: Completion, fields: nat)
    | Clearing(next: nat, copy: Completion)
    | Advancing(next: nat, copy: Completion)

  const LOADS: nat := 4 + MAX_PAYLOAD

  function Load(copy: Completion, c: Completion, field: nat): (r: Completion)
    requires |copy.payload| == |c.payload| == MAX_PAYLOAD && field < LOADS
    ensures |r.payload| == MAX_PAYLOAD
  {
    if field == 0 then copy.(jobId := c.jobId)
    else if field == 1 then copy.(generation := c.generation)
    else if field == 2 then copy.(success := c.success)
    else if field == 3 then copy.(length := c.length)
    else copy.(payload := copy.payload[field - 4 := c.payload[field - 4]])
  }

  /** The caller's record before anything is copied into it. */
  function Blank(): (r: Completion)
    ensures |r.payload| == MAX_PAYLOAD
  {
    Completion(0, 0, false, 0, seq(MAX_PAYLOAD, i => 0))
  }

  /** The next step of the consumer; from `Rest` it starts another pop. */
  function PopStep(h: Shared, p: Pop): (Shared, Pop)
    requires h.WellFormed() && (p.Reading? ==> |p.copy.payload| == MAX_PAYLOAD)
  {
    match p
    case Rest(_, _) => (h, Loaded(h.next))
    case Loaded(next) => if h.cells[h.At(next)].state == Ready then (h, Seen(next)) else (h, Rest(false, Blank()))
    case Seen(next) =>
      if h.cells[h.At(next)].completion.jobId != next then (h, Rest(false, Blank())) else (h, Reading(next, Blank(), 0))
    case Reading(next, copy, fields) =>
      if fields < LOADS then (h, Reading(next, Load(copy, h.cells[h.At(next)].completion, fields), fields + 1))
      else (h, Clearing(next, copy))
    case Clearing(next, copy) =>
      (SetCell(h, h.At(next), h.cells[h.At(next)].(state := Empty)), Advancing(next, copy))
    case Advancing(next, copy) => (h.(next := next + 1), Rest(true, copy))
  }

  // ---------------------------------------------------------------- runs

  /** Shared memory, every thread's position, and the history of the run. */
  datatype System = System(
    shared: Shared, workers: seq<Submit>, pop: Pop,
    first: nat, called: set<Job>, begun: set<nat>, accepted: set<Job>, returned: set<nat>, popped: seq<Job>)

  datatype Event = Call(worker: nat, job: Job) | Advance(worker: nat) | Consume

  predicate Possible(s: System, e: Event) {
    match e
    case Call(w, _) => w < |s.workers| && !s.workers[w].InCall()
    case Advance(w) => w < |s.workers|
    case Consume => true
  }

  predicate Runnable(s: System) {
    s.shared.WellFormed() && (s.pop.Reading? ==> |s.pop.copy.payload| == MAX_PAYLOAD)
  }

  /** What a completion tells its reader. */
  function JobOf(c: Completion): Job {
    Job(c.jobId, c.generation, c.success, if c.length <= |c.payload| then c.payload[..c.length] else c.payload)
  }

  function AfterAdvance(s: System, w: nat): System
    requires Runnable(s) && w < |s.workers|
  {
    var step := SubmitStep(s.shared, s.workers[w]);
    s.(shared := step.0, workers := s.workers[w := step.1],
       accepted := if step.1.Owning? then s.accepted + {step.1.job} else s.accepted,
       returned := if s.workers[w].Owning? && step.1.Returned? then s.returned + {step.1.job.id} else s.returned)
  }

  function AfterConsume(s: System): System
    requires Runnable(s)
  {
    var step := PopStep(s.shared, s.pop);
    s.(shared := step.0, pop := step.1,
       popped := if step.1.Rest? && step.1.ok then s.popped + [JobOf(step.1.result)] else s.popped)
  }

  function After(s: System, e: Event): System
    requires Runnable(s) && Possible(s, e)
  {
    match e
    case Call(w, job) =>
      s.(workers := s.workers[w := Checking(job)], called := s.called + {job},
         begun := if Valid(s.shared, job) then s.begun + {job.id} else s.begun)
    case Advance(w) => AfterAdvance(s, w)
    case Consume => AfterConsume(s)
  }

  // ---------------------------------------------------------------- core invariant

  /** The first `fields` stores of a slot are done. */
  predicate Stored(c: Completion, job: Job, fields: nat) {
    && (fields > 0 ==> c.jobId == job.id)
    && (fields > 1 ==> c.generation == job.generation)
    && (fields > 2 ==> c.success == job.success)
    && (fields > 3 ==> c.length == |job.payload|)
    && forall k | 0 <= k < |job.payload| && k + 4 < fields && k < |c.payload| :: c.payload[k] == job.payload[k]
  }

  predicate OwnerOk(h: Shared, p: Submit, accepted: set<Job>)
    requires h.WellFormed()
  {
    && (p.InCall() && !p.Checking? ==> Acceptable(p.job))
    && (p.Owning? ==>
          && p.job in accepted && p.fields <= Stores(p.job)
          && h.cells[h.At(p.job.id)].state == Writing && Stored(h.cells[h.At(p.job.id)].completion, p.job, p.fields))
  }

  /** No two submitters write the same slot. */
  predicate OwnSlots(h: Shared, p: Submit, q: Submit)
    requires h.WellFormed()
  {
    p.Owning? && q.Owning? ==> h.At(p.job.id) != h.At(q.job.id)
  }

  /** A completion that is the whole of an accepted submission. */
  predicate Genuine(c: Completion, accepted: set<Job>) {
    c.length <= |c.payload| && JobOf(c) in accepted
  }

  predicate CellOk(h: Shared, i: nat, accepted: set<Job>)
    requires h.WellFormed() && i < |h.cells|
  {
    h.cells[i].state == Ready ==> Genuine(h.cells[i].completion, accepted) && h.At(h.cells[i].completion.jobId) == i
  }

  /** The first `fields` loads of a copy are done. */
  predicate Copied(copy: Completion, c: Completion, fields: nat) {
    && |copy.payload| == |c.payload| == MAX_PAYLOAD
    && (fields > 0 ==> copy.jobId == c.jobId)
    && (fields > 1 ==> copy.generation == c.generation)
    && (fields > 2 ==> copy.success == c.success)
    && (fields > 3 ==> copy.length == c.length)
    && forall k | 0 <= k < MAX_PAYLOAD && k + 4 < fields :: copy.payload[k] == c.payload[k]
  }

  predicate PopOk(h: Shared, p: Pop, accepted: set<Job>)
    requires h.WellFormed()
  {
    match p
    case Rest(_, _) => true
    case Loaded(next) => next == h.next
    case Seen(next) => next == h.next && h.cells[h.At(next)].state == Ready
    case Reading(next, copy, fields) =>
      && next == h.next && h.cells[h.At(next)].state == Ready && h.cells[h.At(next)].completion.jobId == next
      && fields <= LOADS && Copied(copy, h.cells[h.At(next)].completion, fields)
    case Clearing(next, copy) =>
      && next == h.next && h.cells[h.At(next)].state == Ready && h.cells[h.At(next)].completion.jobId == next
      && copy == h.cells[h.At(next)].completion
    case Advancing(next, copy) => next == h.next == copy.jobId && Genuine(copy, accepted)
  }

  predicate PoppedOk(s: System) {
    && s.shared.next == s.first + |s.popped|
    && forall i | 0 <= i < |s.popped| :: s.popped[i].id == s.first + i && s.popped[i] in s.accepted
  }

  ghost predicate WorkersOk(s: System)
    requires s.shared.WellFormed()
  {
    && (forall w | 0 <= w < |s.workers| :: OwnerOk(s.shared, s.workers[w], s.accepted))
    && forall v, w | 0 <= v < w < |s.workers| :: OwnSlots(s.shared, s.workers[v], s.workers[w])
  }

  ghost predicate CellsOk(s: System)
    requires s.shared.WellFormed()
  {
    forall i | 0 <= i < |s.shared.cells| :: CellOk(s.shared, i, s.accepted)
  }

  /** Only what was passed to a submit call is ever accepted. */
  ghost predicate CalledOk(s: System) {
    && s.accepted <= s.called
    && forall w | 0 <= w < |s.workers| && s.workers[w].InCall() :: s.workers[w].job in s.called
  }

  ghost predicate Core(s: System) {
    CalledOk(s) && Runnable(s) && WorkersOk(s) && CellsOk(s) && PopOk(s.shared, s.pop, s.accepted) && PoppedOk(s)
  }

  /** `rtnc_completion_init`: what the slots hold besides their state does not matter. */
  predicate Initial(s: System, capacity: nat, first: nat, generation: nat) {
    && 0 < capacity <= MAX_CAPACITY && |s.shared.cells| == capacity && s.shared.WellFormed()
    && (forall i | 0 <= i < capacity :: s.shared.cells[i].state == Empty)
    && s.shared.next == first == s.first && s.shared.generation == generation && s.shared.rejected == 0
    && (forall w | 0 <= w < |s.workers| :: !s.workers[w].InCall()) && s.pop.Rest?
    && s.called == {} && s.begun == {} && s.accepted == {} && s.returned == {} && s.popped == []
  }

  lemma InitialCore(s: System, capacity: nat, first: nat, generation: nat)
    requires Initial(s, capacity, first, generation)
    ensures Core(s)
  {}

  // ---------------------------------------------------------------- steps of the core invariant

  lemma StoreStep(c: Completion, job: Job, fields: nat)
    requires Stored(c, job, fields) && fields < Stores(job)
    ensures Stored(Store(c, job, fields), job, fields + 1)
  {}

  lemma AllStored(c: Completion, job: Job)
    requires Stored(c, job, Stores(job)) && |c.payload| == MAX_PAYLOAD && Acceptable(job)
    ensures c.length <= |c.payload| && JobOf(c) == job && c.jobId == job.id
  {
    assert c.payload[..c.length] == job.payload;
  }

  lemma LoadStep(copy: Completion, c: Completion, fields: nat)
    requires Copied(copy, c, fields) && fields < LOADS
    ensures Copied(Load(copy, c, fields), c, fields + 1)
  {}

  lemma AllCopied(copy: Completion, c: Completion)
    requires Copied(copy, c, LOADS)
    ensures copy == c
  {
    assert copy.payload == c.payload;
  }

  /** Nobody but its owner disturbs a slot in Writing, nobody but the consumer one in Ready. */
  lemma SubmitKeepsOthers(h: Shared, p: Submit, accepted: set<Job>, q: Submit)
    requires h.WellFormed() && OwnerOk(h, p, accepted) && OwnerOk(h, q, accepted) && OwnSlots(h, p, q)
    ensures var step := SubmitStep(h, p); step.0.WellFormed() && OwnerOk(step.0, q, accepted) && OwnSlots(step.0, step.1, q) && OwnSlots(step.0, q, step.1)
  {
    hide Stored, Acceptable, Store;
  }

  lemma SubmitKeepsOwn(h: Shared, p: Submit, accepted: set<Job>)
    requires h.WellFormed() && OwnerOk(h, p, accepted)
    ensures var step := SubmitStep(h, p);
      step.0.WellFormed() && OwnerOk(step.0, step.1, if step.1.Owning? then accepted + {step.1.job} else accepted)
  {
    hide Acceptable;
    if p.Owning? && p.fields < Stores(p.job) {
      StoreStep(h.cells[h.At(p.job.id)].completion, p.job, p.fields);
      hide Stored, Store;
    }
  }

  lemma SubmitKeepsCells(h: Shared, p: Submit, accepted: set<Job>, i: nat)
    requires h.WellFormed() && OwnerOk(h, p, accepted) && i < |h.cells| && CellOk(h, i, accepted)
    ensures var step := SubmitStep(h, p); step.0.WellFormed() && CellOk(step.0, i, accepted)
  {
    hide Stored, Acceptable, JobOf, Store;
    if p.Owning? && p.fields == Stores(p.job) && i == h.At(p.job.id) {
      AllStored(h.cells[i].completion, p.job);
    }
  }

  lemma SubmitKeepsPop(h: Shared, p: Submit, accepted: set<Job>, pop: Pop)
    requires h.WellFormed() && OwnerOk(h, p, accepted) && PopOk(h, pop, accepted)
    ensures var step := SubmitStep(h, p); step.0.WellFormed() && step.0.next == h.next && PopOk(step.0, pop, accepted)
  {
    hide Stored, Acceptable, Genuine, Copied, Store;
  }

  lemma MoreAccepted(h: Shared, p: Submit, pop: Pop, i: nat, small: set<Job>, large: set<Job>)
    requires h.WellFormed() && small <= large && i < |h.cells|
    ensures OwnerOk(h, p, small) ==> OwnerOk(h, p, large)
    ensures PopOk(h, pop, small) ==> PopOk(h, pop, large)
    ensures CellOk(h, i, small) ==> CellOk(h, i, large)
  {
    hide Stored, Acceptable, JobOf, Copied;
  }

  lemma AdvanceKeepsWorkers(s: System, w: nat)
    requires Runnable(s) && WorkersOk(s) && w < |s.workers|
    ensures var t := AfterAdvance(s, w); t.shared.WellFormed() && WorkersOk(t)
  {
    var (h, p) := SubmitStep(s.shared, s.workers[w]);
    var t := AfterAdvance(s, w);
    SubmitKeepsOwn(s.shared, s.workers[w], s.accepted);
    hide OwnerOk, OwnSlots, SubmitStep, Shared.WellFormed;
    forall v | 0 <= v < |t.workers|
      ensures OwnerOk(h, t.workers[v], t.accepted)
      ensures v != w ==> OwnSlots(h, p, t.workers[v]) && OwnSlots(h, t.workers[v], p)
    {
      if v != w {
        OwnSlotsSwap(s.shared, s.workers[v], s.workers[w]);
        SubmitKeepsOthers(s.shared, s.workers[w], s.accepted, s.workers[v]);
        MoreAccepted(h, s.workers[v], s.pop, h.At(0), s.accepted, t.accepted);
      }
    }
    forall u, v | 0 <= u < v < |t.workers| && u != w && v != w
      ensures OwnSlots(h, t.workers[u], t.workers[v])
    {
      assert OwnSlots(s.shared, s.workers[u], s.workers[v]);
      SameSlots(s.shared, s.workers[w], s.workers[u], s.workers[v]);
    }
  }

  lemma OwnSlotsSwap(h: Shared, p: Submit, q: Submit)
    requires h.WellFormed()
    ensures OwnSlots(h, p, q) <==> OwnSlots(h, q, p)
  {}

  lemma SameSlots(h: Shared, p: Submit, u: Submit, v: Submit)
    requires h.WellFormed() && OwnSlots(h, u, v)
    ensures SubmitStep(h, p).0.WellFormed() && OwnSlots(SubmitStep(h, p).0, u, v)
  {
    SubmitWellFormed(h, p);
    assert |SubmitStep(h, p).0.cells| == |h.cells|;
  }

  lemma SubmitWellFormed(h: Shared, p: Submit)
    requires h.WellFormed()
    ensures SubmitStep(h, p).0.WellFormed()
  {
    hide Acceptable, Store;
  }

  lemma AdvanceKeepsCalled(s: System, w: nat)
    requires Runnable(s) && CalledOk(s) && w < |s.workers|
    ensures CalledOk(AfterAdvance(s, w))
  {
    SubmitJob(s.shared, s.workers[w]);
    hide SubmitStep;
  }

  lemma SubmitJob(h: Shared, p: Submit)
    requires h.WellFormed()
    ensures var r := SubmitStep(h, p).1; r.InCall() ==> p.InCall() && r.job == p.job
  {
    hide Store, Acceptable;
  }

  lemma AdvanceKeepsCore(s: System, w: nat)
    requires Core(s) && w < |s.workers|
    ensures Core(AfterAdvance(s, w))
  {
    var (h, p) := SubmitStep(s.shared, s.workers[w]);
    var t := AfterAdvance(s, w);
    AdvanceKeepsWorkers(s, w);
    AdvanceKeepsCalled(s, w);
    SubmitKeepsPop(s.shared, s.workers[w], s.accepted, s.pop);
    hide WorkersOk, PopOk, OwnerOk, CellOk, SubmitStep, CalledOk;
    MoreAccepted(h, p, s.pop, h.At(0), s.accepted, t.accepted);
    forall i | 0 <= i < |t.shared.cells| ensures CellOk(t.shared, i, t.accepted) {
      SameCells(s.shared, s.workers[w]);
      CellHolds(s, i);
      WorkerHolds(s, w);
      SubmitKeepsCells(s.shared, s.workers[w], s.accepted, i);
      MoreAccepted(h, p, s.pop, i, s.accepted, t.accepted);
    }
  }

  lemma SameCells(h: Shared, p: Submit)
    requires h.WellFormed()
    ensures |SubmitStep(h, p).0.cells| == |h.cells|
  {}

  lemma CellHolds(s: System, i: nat)
    requires Core(s) && i < |s.shared.cells|
    ensures CellOk(s.shared, i, s.accepted)
  {}

  lemma WorkerHolds(s: System, w: nat)
    requires Core(s) && w < |s.workers|
    ensures OwnerOk(s.shared, s.workers[w], s.accepted)
  {}

  // the consumer

  lemma PopKeepsPop(h: Shared, p: Pop, accepted: set<Job>)
    requires h.WellFormed() && PopOk(h, p, accepted)
    requires p.Clearing? ==> CellOk(h, h.At(p.next), accepted)
    ensures p.Reading? ==> |p.copy.payload| == MAX_PAYLOAD
    ensures var step := PopStep(h, p);
      step.0.WellFormed() && PopOk(step.0, step.1, accepted) && (step.1.Reading? ==> |step.1.copy.payload| == MAX_PAYLOAD)
  {
    hide Genuine, Load;
    if p.Reading? {
      var c := h.cells[h.At(p.next)].completion;
      if p.fields < LOADS {
        LoadStep(p.copy, c, p.fields);
      } else {
        AllCopied(p.copy, c);
      }
    }
  }

  lemma PopKeepsOwner(h: Shared, p: Pop, accepted: set<Job>, q: Submit)
    requires h.WellFormed() && PopOk(h, p, accepted) && OwnerOk(h, q, accepted) && (p.Reading? ==> |p.copy.payload| == MAX_PAYLOAD)
    ensures PopStep(h, p).0.WellFormed() && OwnerOk(PopStep(h, p).0, q, accepted)
  {
    hide Stored, Acceptable, Genuine, Copied, Load;
  }

  lemma PopKeepsCell(h: Shared, p: Pop, accepted: set<Job>, i: nat)
    requires h.WellFormed() && i < |h.cells| && CellOk(h, i, accepted) && (p.Reading? ==> |p.copy.payload| == MAX_PAYLOAD)
    ensures PopStep(h, p).0.WellFormed() && |PopStep(h, p).0.cells| == |h.cells| && CellOk(PopStep(h, p).0, i, accepted)
  {
    hide Genuine, Load;
  }

  lemma PopDelivers(h: Shared, p: Pop, accepted: set<Job>)
    requires h.WellFormed() && PopOk(h, p, accepted) && (p.Reading? ==> |p.copy.payload| == MAX_PAYLOAD)
    ensures var step := PopStep(h, p);
      if step.1.Rest? && step.1.ok then step.0.next == h.next + 1 && JobOf(step.1.result).id == h.next && JobOf(step.1.result) in accepted else step.0.next == h.next
  {
    hide Copied, Load;
  }

  lemma ConsumeKeepsCalled(s: System)
    requires Runnable(s) && CalledOk(s)
    ensures CalledOk(AfterConsume(s))
  {
    hide PopStep;
  }

  lemma ConsumeKeepsCore(s: System)
    requires Core(s)
    ensures Core(AfterConsume(s))
  {
    var (h, p) := PopStep(s.shared, s.pop);
    var t := AfterConsume(s);
    if s.pop.Clearing? {
      CellHolds(s, s.shared.At(s.pop.next));
    }
    PopKeepsPop(s.shared, s.pop, s.accepted);
    PopDelivers(s.shared, s.pop, s.accepted);
    hide PopOk, OwnerOk, CellOk, PopStep, JobOf, CalledOk;
    assert CalledOk(t) by {
      ConsumeKeepsCalled(s);
    }
    forall i | 0 <= i < |t.shared.cells| ensures CellOk(t.shared, i, t.accepted) {
      PopKeepsCell(s.shared, s.pop, s.accepted, s.shared.At(i));
      assert |t.shared.cells| == |s.shared.cells|;
      PopKeepsCell(s.shared, s.pop, s.accepted, i);
    }
    forall w | 0 <= w < |t.workers| ensures OwnerOk(t.shared, t.workers[w], t.accepted) {
      PopKeepsOwner(s.shared, s.pop, s.accepted, s.workers[w]);
    }
    PopKeepsCell(s.shared, s.pop, s.accepted, 0);
  }

  /** Every step of every thread keeps the invariant, whatever is submitted. */
  lemma KeepsCore(s: System, e: Event)
    requires Core(s) && Possible(s, e)
    ensures Core(After(s, e))
  {
    hide Core, AfterAdvance, AfterConsume;
    match e
    case Call(w, job) => CallKeepsCore(s, w, job);
    case Advance(w) => AdvanceKeepsCore(s, w);
    case Consume => ConsumeKeepsCore(s);
  }

  lemma CallKeepsCore(s: System, w: nat, job: Job)
    requires Core(s) && Possible(s, Call(w, job))
    ensures Core(After(s, Call(w, job)))
  {
    hide Acceptable, Stored, CellOk, PopOk;
  }

  // ---------------------------------------------------------------- runs

  /** The state after a sequence of events, each possible when it occurs. */
  ghost predicate Run(s: System, events: seq<Event>, t: System)
    decreases |events|
  {
    if events == [] then t == s
    else Runnable(s) && Possible(s, events[0]) && Run(After(s, events[0]), events[1..], t)
  }

  /**
   In every run, with no assumption on the submitters, the consumer has received
   an unbroken sequence of accepted submissions in order of their ids.
   */
  lemma {:induction false} OrderedDelivery(s: System, events: seq<Event>, t: System)
    requires Core(s) && Run(s, events, t)
    ensures Core(t) && t.first == s.first && t.shared.next == t.first + |t.popped|
    ensures forall i | 0 <= i < |t.popped| :: t.popped[i].id == t.first + i && t.popped[i] in t.accepted && t.popped[i] in t.called
    decreases |events|
  {
    hide WorkersOk, CellsOk, PopOk, AfterAdvance, AfterConsume;
    if events != [] {
      KeepsCore(s, events[0]);
      FirstStays(s, events[0]);
      OrderedDelivery(After(s, events[0]), events[1..], t);
    }
  }

  lemma FirstStays(s: System, e: Event)
    requires Runnable(s) && Possible(s, e)
    ensures After(s, e).first == s.first
  {}

  lemma PoppedJob(s: System, id: nat)
    requires Core(s) && s.first <= id < s.shared.next
    ensures s.popped[id - s.first].id == id && s.popped[id - s.first] in s.accepted
  {
    hide WorkersOk, CellsOk, PopOk;
  }

  /** A job that was never accepted blocks every later one, for as long as it is missing. */
  lemma MissingJobBlocks(s: System, id: nat)
    requires Core(s) && id >= s.first && forall job | job in s.accepted :: job.id != id
    ensures s.shared.next <= id && forall i | 0 <= i < |s.popped| :: s.popped[i].id < id
  {
    if s.shared.next > id {
      PoppedJob(s, id);
    }
    hide WorkersOk, CellsOk, PopOk;
  }

  /** The slot the consumer reads is Ready from its test to its clearing, and no submitter owns it then. */
  lemma ReaderAlone(s: System, w: nat)
    requires Core(s) && w < |s.workers| && s.workers[w].Owning?
    requires s.pop.Seen? || s.pop.Reading? || s.pop.Clearing?
    ensures s.shared.cells[s.shared.At(s.pop.next)].state == Ready
    ensures s.shared.At(s.pop.next) != s.shared.At(s.workers[w].job.id)
  {
    WorkerHolds(s, w);
  }
}
