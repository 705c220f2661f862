/**
 Why reassembly refuses a frame: exactly when it is late, out of sequence, too much
 or ill-formed, in terms of the frames received before.
 */
module ReassemblyRefusals {
  import opened Fragmentation
  import opened Reassembly
  import opened ReassemblyRuns

  /** A chain that still waits for frames when arrival n comes too late for it. */
  ghost predicate LateFor(c: Config, run: seq<Arrival>, s: nat, n: nat)
    requires n < |run| && AllWellFormed(c, run)
  {
    OpenChain(c, run, s, n) && Elapsed(run[s].now, run[n].now) > c.timeout
  }

  /** A chain for which arrival n is the next frame, in time. */
  ghost predicate NextFor(c: Config, run: seq<Arrival>, s: nat, n: nat)
    requires n < |run| && AllWellFormed(c, run)
  {
    && OpenChain(c, run, s, n) && Elapsed(run[s].now, run[n].now) <= c.timeout
    && Remaining(Header(run[n])) == Remaining(Header(run[s])) - (n - s)
  }

  ghost predicate TooMuch(c: Config, run: seq<Arrival>, s: nat, n: nat)
    requires n < |run| && AllWellFormed(c, run)
  {
    NextFor(c, run, s, n) && |DataOf(run, s, n)| + |run[n].frame| - 1 > c.mtu
  }

  /** What is reported for arrival n, a well-formed frame among well-formed frames. */
  ghost predicate Explained(c: Config, run: seq<Arrival>, n: nat, outcome: Outcome)
    requires n < |run| && AllWellFormed(c, run)
  {
    var continues := Continues(Header(run[n]));
    && outcome != InvalidFrame
    && (outcome == TimedOut <==> continues && exists s: nat :: LateFor(c, run, s, n))
    && (outcome == InvalidSequence <==> continues && forall s: nat :: !LateFor(c, run, s, n) && !NextFor(c, run, s, n))
    && (outcome == Oversize <==> if continues then exists s: nat :: TooMuch(c, run, s, n) else |run[n].frame| - 1 > c.mtu)
  }

  lemma OpenOnce(c: Config, run: seq<Arrival>, s: nat, t: nat, n: nat)
    requires n <= |run| && AllWellFormed(c, run) && OpenChain(c, run, s, n) && OpenChain(c, run, t, n)
    ensures s == t
  {
    OneChain(c, run, s, t, n);
  }

  lemma StartExplained(c: Config, run: seq<Arrival>, n: nat, a: Assembly)
    requires n < |run| && AllWellFormed(c, run) && !Continues(Header(run[n]))
    ensures Explained(c, run, n, Pushed(c, a, run[n]).1)
  {
    hide Continues, Remaining, Elapsed, OpenChain;
  }

  lemma UnexpectedExplained(c: Config, run: seq<Arrival>, n: nat, a: Assembly)
    requires n < |run| && AllWellFormed(c, run) && Continues(Header(run[n])) && Tracks(c, run, n, a) && !a.active
    ensures Explained(c, run, n, Pushed(c, a, run[n]).1)
  {
    hide Continues, Remaining, Elapsed, DataOf;
    forall s: nat ensures !OpenChain(c, run, s, n) {}
    hide OpenChain;
  }

  lemma ExpectedExplained(c: Config, run: seq<Arrival>, n: nat, a: Assembly, s: nat)
    requires n < |run| && AllWellFormed(c, run) && Continues(Header(run[n])) && a.active && s < n && TracksFrom(c, run, s, n, a)
    ensures Explained(c, run, n, Pushed(c, a, run[n]).1)
  {
    hide Continues, Remaining, Elapsed, DataOf;
    var outcome := Pushed(c, a, run[n]).1;
    assert OpenChain(c, run, s, n) && a.remaining > 0;
    forall t: nat | OpenChain(c, run, t, n) ensures t == s {
      OpenOnce(c, run, s, t, n);
    }
    hide OpenChain;
    assert outcome == TimedOut <==> LateFor(c, run, s, n);
    assert outcome == InvalidSequence <==> !LateFor(c, run, s, n) && !NextFor(c, run, s, n);
    assert outcome == Oversize <==> TooMuch(c, run, s, n);
  }

  /**
   For every run of well-formed frames from a cleared assembly: a continuation is
   refused as late exactly when it finds a packet under way that has taken too long, as
   out of sequence exactly when none is under way that it continues, and as too much
   exactly when the packet it continues would exceed the MTU.
   */
  lemma RefusesExactly(c: Config, run: seq<Arrival>, n: nat)
    requires n < |run| && AllWellFormed(c, run)
    ensures Explained(c, run, n, Reported(c, run, n))
  {
    AlwaysTracks(c, run, n);
    var a := After(c, run, n);
    if !Continues(Header(run[n])) {
      StartExplained(c, run, n, a);
    } else if !a.active {
      UnexpectedExplained(c, run, n, a);
    } else {
      var s: nat :| s < n && TracksFrom(c, run, s, n, a);
      ExpectedExplained(c, run, n, a, s);
    }
    hide Explained, Pushed, After, Tracks, AllWellFormed;
  }

  /** In any run, ill-formed frames included, those being refused as such and otherwise without effect. */
  lemma RefusesExactlyInAnyRun(c: Config, run: seq<Arrival>, n: nat)
    requires n < |run|
    ensures var kept := Kept(c, run[..n + 1]);
      && AllWellFormed(c, kept)
      && if WellFormed(c, run[n].frame) then kept != [] && Explained(c, kept, |kept| - 1, Reported(c, run, n))
         else Reported(c, run, n) == InvalidFrame
  {
    var kept, before := Kept(c, run[..n + 1]), Kept(c, run[..n]);
    DeliversExactlyInAnyRun(c, run, n);
    KeptLast(c, run, n);
    if WellFormed(c, run[n].frame) {
      LastReported(c, run, n);
      RefusesExactly(c, kept, |before|);
    }
    hide Explained, Ends, Kept, Reported, AllWellFormed, WellFormed;
  }
}
