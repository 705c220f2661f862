/**
 Whole runs of reassembly. `DeliversExactly`: a push completes a packet if and only
 if the well-formed frames so far end with a start frame and exactly the
 continuations it announced, counting down to zero, in time and within the MTU; and
 the packet is their data in order.
 */
module ReassemblyRuns {
  import opened Bits
  import opened Fragmentation
  import opened Reassembly

  /** The assembly after n arrivals. */
  function After(c: Config, run: seq<Arrival>, n: nat): Assembly
    requires n <= |run|
  {
    if n == 0 then CLEARED else Pushed(c, After(c, run, n - 1), run[n - 1]).0
  }

  /** What the push of arrival n reports. */
  function Reported(c: Config, run: seq<Arrival>, n: nat): Outcome
    requires n < |run|
  {
    Pushed(c, After(c, run, n), run[n]).1
  }

  // ---------------------------------------------------------------- ill-formed frames do not matter

  function Kept(c: Config, run: seq<Arrival>): seq<Arrival> {
    if run == [] then []
    else
      var last := run[|run| - 1];
      Kept(c, run[..|run| - 1]) + if WellFormed(c, last.frame) then [last] else []
  }

  lemma {:induction false} KeptWellFormed(c: Config, run: seq<Arrival>)
    ensures forall i | 0 <= i < |Kept(c, run)| :: WellFormed(c, Kept(c, run)[i].frame)
  {
    if run != [] {
      KeptWellFormed(c, run[..|run| - 1]);
    }
  }

  lemma {:induction false} AfterPrefix(c: Config, run: seq<Arrival>, more: seq<Arrival>, n: nat)
    requires n <= |run|
    ensures After(c, run + more, n) == After(c, run, n)
  {
    hide Pushed;
    if n > 0 {
      AfterPrefix(c, run, more, n - 1);
    }
  }

  /** Frames of a wrong length leave the assembly as it is. */
  lemma {:induction false} IllFormedIgnored(c: Config, run: seq<Arrival>)
    ensures After(c, run, |run|) == After(c, Kept(c, run), |Kept(c, run)|)
  {
    var n := |run|;
    if n > 0 {
      var short, last := run[..n - 1], run[n - 1];
      IllFormedIgnored(c, short);
      assert run == short + [last];
      AfterPrefix(c, short, [last], n - 1);
      var before := After(c, short, n - 1);
      assert After(c, run, n) == Pushed(c, before, last).0;
      if WellFormed(c, last.frame) {
        AfterPrefix(c, Kept(c, short), [last], |Kept(c, short)|);
        hide Pushed, WellFormed;
        assert Kept(c, run)[|Kept(c, short)|] == last;
      } else {
        assert Pushed(c, before, last).0 == before;
        assert Kept(c, run) == Kept(c, short);
      }
    }
  }

  // ---------------------------------------------------------------- chains

  function Header(e: Arrival): Byte
    requires e.frame != []
  {
    e.frame[0]
  }

  predicate AllWellFormed(c: Config, run: seq<Arrival>) {
    forall i | 0 <= i < |run| :: WellFormed(c, run[i].frame)
  }

  /** Data of arrivals s .. n - 1 in order. */
  function DataOf(run: seq<Arrival>, s: nat, n: nat): seq<Byte>
    requires s <= n <= |run| && forall i | s <= i < n :: run[i].frame != []
    decreases n - s
  {
    if s == n then [] else DataOf(run, s, n - 1) + run[n - 1].frame[1..]
  }

  /** Arrivals s .. n - 1 are a start frame and continuations that count down from it, in time and within the MTU. */
  predicate Chain(c: Config, run: seq<Arrival>, s: nat, n: nat)
    requires n <= |run| && AllWellFormed(c, run)
  {
    && s < n && !Continues(Header(run[s]))
    && (forall i | s < i < n ::
          && Continues(Header(run[i])) && Remaining(Header(run[i])) == Remaining(Header(run[s])) - (i - s)
          && Elapsed(run[s].now, run[i].now) <= c.timeout)
    && |DataOf(run, s, n)| <= c.mtu
  }

  /** The chain still waits for frames. */
  predicate OpenChain(c: Config, run: seq<Arrival>, s: nat, n: nat)
    requires n <= |run| && AllWellFormed(c, run)
  {
    Chain(c, run, s, n) && Remaining(Header(run[s])) > n - 1 - s
  }

  /** The chain has all the frames its start announced. */
  predicate FullChain(c: Config, run: seq<Arrival>, s: nat, n: nat)
    requires n <= |run| && AllWellFormed(c, run)
  {
    Chain(c, run, s, n) && Remaining(Header(run[s])) == n - 1 - s
  }

  /** The assembly holds the open chain that starts at s, or there is none. */
  ghost predicate Tracks(c: Config, run: seq<Arrival>, n: nat, a: Assembly)
    requires n <= |run| && AllWellFormed(c, run)
  {
    if a.active then exists s: nat :: s < n && TracksFrom(c, run, s, n, a)
    else forall s: nat | s < n :: !OpenChain(c, run, s, n)
  }

  predicate TracksFrom(c: Config, run: seq<Arrival>, s: nat, n: nat, a: Assembly)
    requires n <= |run| && AllWellFormed(c, run)
  {
    && OpenChain(c, run, s, n) && a.data == DataOf(run, s, n) && a.started == run[s].now
    && a.remaining == Remaining(Header(run[s])) - (n - 1 - s)
  }

  /** A packet is complete exactly when a full chain ends here, and is that chain's data. */
  ghost predicate Ends(c: Config, run: seq<Arrival>, n: nat, outcome: Outcome)
    requires n <= |run| && AllWellFormed(c, run)
  {
    && (outcome.Complete? <==> exists s: nat :: FullChain(c, run, s, n))
    && forall s: nat | FullChain(c, run, s, n) :: outcome == Complete(DataOf(run, s, n))
  }

  /** No chain but one from s takes in the last arrival. */
  ghost predicate OnlyChain(c: Config, run: seq<Arrival>, s: nat, n: nat)
    requires n <= |run| && AllWellFormed(c, run)
  {
    forall t: nat | Chain(c, run, t, n) :: t == s
  }

  /** Two chains that end together start together. */
  lemma OneChain(c: Config, run: seq<Arrival>, s: nat, t: nat, n: nat)
    requires n <= |run| && AllWellFormed(c, run) && Chain(c, run, s, n) && Chain(c, run, t, n)
    ensures s == t
  {
    hide Continues, Remaining, DataOf;
  }

  lemma ChainShrinks(c: Config, run: seq<Arrival>, s: nat, n: nat)
    requires n < |run| && AllWellFormed(c, run) && Chain(c, run, s, n + 1) && s < n
    ensures OpenChain(c, run, s, n) && Continues(Header(run[n])) && Remaining(Header(run[n])) == Remaining(Header(run[s])) - (n - s)
    ensures Elapsed(run[s].now, run[n].now) <= c.timeout
    ensures DataOf(run, s, n + 1) == DataOf(run, s, n) + run[n].frame[1..]
  {
    hide Continues, Remaining, Elapsed;
    LengthLeft(run[n]);
  }

  lemma LengthLeft(e: Arrival)
    requires e.frame != []
    ensures Remaining(Header(e)) >= 0
  {}

  lemma ChainGrows(c: Config, run: seq<Arrival>, s: nat, n: nat)
    requires n < |run| && AllWellFormed(c, run) && OpenChain(c, run, s, n)
    requires Continues(Header(run[n])) && Remaining(Header(run[n])) == Remaining(Header(run[s])) - (n - s)
    requires Elapsed(run[s].now, run[n].now) <= c.timeout && |DataOf(run, s, n)| + |run[n].frame| - 1 <= c.mtu
    ensures Chain(c, run, s, n + 1) && DataOf(run, s, n + 1) == DataOf(run, s, n) + run[n].frame[1..]
  {
    hide Continues, Remaining, Elapsed;
  }

  /** A start frame begins a chain of its own. */
  lemma StartChain(c: Config, run: seq<Arrival>, n: nat)
    requires n < |run| && AllWellFormed(c, run) && !Continues(Header(run[n])) && |run[n].frame| - 1 <= c.mtu
    ensures Chain(c, run, n, n + 1) && DataOf(run, n, n + 1) == run[n].frame[1..]
  {
    hide Continues, Remaining, Elapsed;
    assert DataOf(run, n, n) == [];
  }

  /** What one push does to the chain that the assembly holds. */
  lemma PushTracks(c: Config, run: seq<Arrival>, n: nat, a: Assembly)
    requires n < |run| && AllWellFormed(c, run) && Tracks(c, run, n, a)
    ensures var step := Pushed(c, a, run[n]);
      && Tracks(c, run, n + 1, step.0)
      && Ends(c, run, n + 1, step.1)
  {
    if Continues(Header(run[n])) {
      ContinuationTracks(c, run, n, a);
    } else {
      StartTracks(c, run, n, a);
    }
  }

  lemma StartsItself(c: Config, run: seq<Arrival>, n: nat)
    requires n < |run| && AllWellFormed(c, run) && !Continues(Header(run[n]))
    ensures OnlyChain(c, run, n, n + 1)
  {
    hide Continues, Remaining, Elapsed, DataOf;
    var m := n + 1;
    forall s: nat | Chain(c, run, s, m) ensures s == n {
      if s < n {
        ChainShrinks(c, run, s, n);
      }
    }
  }

  lemma StartTracks(c: Config, run: seq<Arrival>, n: nat, a: Assembly)
    requires n < |run| && AllWellFormed(c, run) && !Continues(Header(run[n]))
    ensures var step := Pushed(c, a, run[n]);
      && Tracks(c, run, n + 1, step.0)
      && Ends(c, run, n + 1, step.1)
  {
    hide Continues, Remaining, Elapsed;
    var e := run[n];
    StartsItself(c, run, n);
    if |e.frame| - 1 <= c.mtu {
      StartChain(c, run, n);
      hide Chain;
      if Remaining(Header(e)) > 0 {
        assert TracksFrom(c, run, n, n + 1, Pushed(c, a, e).0);
      } else {
        assert FullChain(c, run, n, n + 1);
      }
    } else {
      assert DataOf(run, n, n) == [];
      assert DataOf(run, n, n + 1) == e.frame[1..];
    }
  }

  /** A chain that takes in arrival n continues the one the assembly holds. */
  lemma OnlyFrom(c: Config, run: seq<Arrival>, n: nat, a: Assembly, s: nat, t: nat)
    requires n < |run| && AllWellFormed(c, run) && Continues(Header(run[n])) && s < n && TracksFrom(c, run, s, n, a)
    requires t <= n && Chain(c, run, t, n + 1)
    ensures t == s
  {
    hide Continues, Remaining, Elapsed, DataOf;
    if t < n {
      ChainShrinks(c, run, t, n);
      OneChain(c, run, s, t, n);
    }
  }

  lemma NoChainBefore(c: Config, run: seq<Arrival>, n: nat, a: Assembly, t: nat)
    requires n < |run| && AllWellFormed(c, run) && Continues(Header(run[n])) && Tracks(c, run, n, a) && !a.active && t <= n
    ensures !Chain(c, run, t, n + 1)
  {
    hide Continues, Remaining, Elapsed, DataOf;
    if t < n && Chain(c, run, t, n + 1) {
      ChainShrinks(c, run, t, n);
    }
  }

  lemma ContinuationTracks(c: Config, run: seq<Arrival>, n: nat, a: Assembly)
    requires n < |run| && AllWellFormed(c, run) && Tracks(c, run, n, a) && Continues(Header(run[n]))
    ensures var step := Pushed(c, a, run[n]);
      && Tracks(c, run, n + 1, step.0)
      && Ends(c, run, n + 1, step.1)
  {
    hide Continues, Remaining, Elapsed, DataOf;
    if !a.active {
      var m := n + 1;
      forall t: nat | t < m ensures !Chain(c, run, t, m) {
        NoChainBefore(c, run, n, a, t);
      }
    } else {
      var s: nat :| s < n && TracksFrom(c, run, s, n, a);
      var m := n + 1;
      forall t: nat | Chain(c, run, t, m) ensures t == s {
        OnlyFrom(c, run, n, a, s, t);
      }
      ContinuesFrom(c, run, n, a, s);
    }
  }

  lemma ContinuesFrom(c: Config, run: seq<Arrival>, n: nat, a: Assembly, s: nat)
    requires n < |run| && AllWellFormed(c, run) && Continues(Header(run[n])) && a.active && s < n && TracksFrom(c, run, s, n, a)
    requires OnlyChain(c, run, s, n + 1)
    ensures var step := Pushed(c, a, run[n]);
      && Tracks(c, run, n + 1, step.0)
      && Ends(c, run, n + 1, step.1)
  {
    hide Continues, Remaining, Elapsed, DataOf;
    if Chain(c, run, s, n + 1) {
      ChainShrinks(c, run, s, n);
      ContinuesInside(c, run, n, a, s);
    } else {
      ContinuesOutside(c, run, n, a, s);
    }
  }

  lemma EndsFull(c: Config, run: seq<Arrival>, s: nat, n: nat)
    requires n <= |run| && AllWellFormed(c, run) && OnlyChain(c, run, s, n) && FullChain(c, run, s, n)
    ensures Ends(c, run, n, Complete(DataOf(run, s, n)))
  {
    hide Chain, DataOf, AllWellFormed, Remaining;
  }

  lemma EndsNot(c: Config, run: seq<Arrival>, s: nat, n: nat, outcome: Outcome)
    requires n <= |run| && AllWellFormed(c, run) && OnlyChain(c, run, s, n)
    requires !outcome.Complete? && s < n && (Chain(c, run, s, n) ==> Remaining(Header(run[s])) != n - 1 - s)
    ensures Ends(c, run, n, outcome)
  {
    hide Chain, DataOf, AllWellFormed, Remaining;
  }

  lemma TracksOne(c: Config, run: seq<Arrival>, s: nat, n: nat, a: Assembly)
    requires n <= |run| && AllWellFormed(c, run) && a.active && s < n && TracksFrom(c, run, s, n, a)
    ensures Tracks(c, run, n, a)
  {
    hide TracksFrom, AllWellFormed;
  }

  lemma TracksNone(c: Config, run: seq<Arrival>, s: nat, n: nat, a: Assembly)
    requires n <= |run| && AllWellFormed(c, run) && OnlyChain(c, run, s, n)
    requires !a.active && s < n && (Chain(c, run, s, n) ==> Remaining(Header(run[s])) <= n - 1 - s)
    ensures Tracks(c, run, n, a)
  {
    hide Chain, DataOf, AllWellFormed, Remaining;
  }

  /** A start frame that fits begins a new packet, whatever was under way. */
  lemma PushStart(c: Config, a: Assembly, e: Arrival)
    requires WellFormed(c, e.frame) && !Continues(Header(e)) && |e.frame[1..]| <= c.mtu
    ensures var step, data, left := Pushed(c, a, e), e.frame[1..], Remaining(Header(e));
      step == (Assembly(left > 0, data, left, e.now), if left == 0 then Complete(data) else Incomplete)
  {
    hide Continues, Remaining, Elapsed;
    assert [] + e.frame[1..] == e.frame[1..];
  }

  /** The continuation that an assembly waits for, in time and small enough, is taken in. */
  lemma PushInside(c: Config, a: Assembly, e: Arrival)
    requires WellFormed(c, e.frame) && Continues(Header(e)) && a.active && Elapsed(a.started, e.now) <= c.timeout
    requires a.remaining == Remaining(Header(e)) + 1 && |a.data + e.frame[1..]| <= c.mtu
    ensures var step, grown, left := Pushed(c, a, e), a.data + e.frame[1..], Remaining(Header(e));
      step == (Assembly(left > 0, grown, left, a.started), if left == 0 then Complete(grown) else Incomplete)
  {
    hide Continues, Remaining, Elapsed;
  }

  lemma ContinuesInside(c: Config, run: seq<Arrival>, n: nat, a: Assembly, s: nat)
    requires n < |run| && AllWellFormed(c, run) && Continues(Header(run[n])) && a.active && s < n && TracksFrom(c, run, s, n, a)
    requires Chain(c, run, s, n + 1) && OnlyChain(c, run, s, n + 1)
    ensures var step := Pushed(c, a, run[n]); Tracks(c, run, n + 1, step.0) && Ends(c, run, n + 1, step.1)
  {
    var step := Pushed(c, a, run[n]);
    ChainShrinks(c, run, s, n);
    assert |DataOf(run, s, n + 1)| <= c.mtu;
    PushInside(c, a, run[n]);
    hide Pushed, Continues, Remaining, Elapsed, DataOf, Chain, Ends, Tracks, OnlyChain, AllWellFormed;
    if step.0.active {
      TracksOne(c, run, s, n + 1, step.0);
      EndsNot(c, run, s, n + 1, step.1);
    } else {
      TracksNone(c, run, s, n + 1, step.0);
      EndsFull(c, run, s, n + 1);
    }
  }

  lemma ContinuesOutside(c: Config, run: seq<Arrival>, n: nat, a: Assembly, s: nat)
    requires n < |run| && AllWellFormed(c, run) && Continues(Header(run[n])) && a.active && s < n && TracksFrom(c, run, s, n, a)
    requires !Chain(c, run, s, n + 1) && OnlyChain(c, run, s, n + 1)
    ensures var step := Pushed(c, a, run[n]); Tracks(c, run, n + 1, step.0) && Ends(c, run, n + 1, step.1)
  {
    var step := Pushed(c, a, run[n]);
    if step.0.active || step.1.Complete? {
      PushTakes(c, a, run[n]);
      ChainGrows(c, run, s, n);
    }
    hide Continues, Remaining, Elapsed, DataOf, Chain, Pushed, Ends, Tracks, OnlyChain, AllWellFormed;
    EndsNot(c, run, s, n + 1, step.1);
    TracksNone(c, run, s, n + 1, step.0);
  }

  /** A continuation is taken in only by an assembly that waits for it. */
  lemma PushTakes(c: Config, a: Assembly, e: Arrival)
    requires WellFormed(c, e.frame) && Continues(Header(e)) && a.active
    requires var step := Pushed(c, a, e); step.0.active || step.1.Complete?
    ensures Elapsed(a.started, e.now) <= c.timeout && a.remaining == Remaining(Header(e)) + 1 && |a.data + e.frame[1..]| <= c.mtu
  {
    hide Continues, Remaining, Elapsed;
  }

  lemma {:induction false} AlwaysTracks(c: Config, run: seq<Arrival>, n: nat)
    requires n <= |run| && AllWellFormed(c, run)
    ensures Tracks(c, run, n, After(c, run, n))
  {
    hide Pushed, AllWellFormed, Tracks, FullChain;
    if n > 0 {
      AlwaysTracks(c, run, n - 1);
      PushTracks(c, run, n - 1, After(c, run, n - 1));
    } else {
      TracksNothing(c, run);
    }
  }

  lemma TracksNothing(c: Config, run: seq<Arrival>)
    requires AllWellFormed(c, run)
    ensures Tracks(c, run, 0, CLEARED)
  {}

  /**
   For every run from a cleared assembly: the push of arrival n completes a packet
   exactly when a full chain ends there, and it returns that chain's data.
   */
  lemma DeliversExactly(c: Config, run: seq<Arrival>, n: nat)
    requires n < |run| && AllWellFormed(c, run)
    ensures Ends(c, run, n + 1, Reported(c, run, n))
  {
    AlwaysTracks(c, run, n);
    PushTracks(c, run, n, After(c, run, n));
    hide FullChain, Tracks, Pushed, After, AllWellFormed;
  }

  /** The last frame of a full chain delivers its data. */
  lemma ChainDelivers(c: Config, run: seq<Arrival>, s: nat, n: nat)
    requires AllWellFormed(c, run) && n <= |run| && FullChain(c, run, s, n)
    ensures s < n && Reported(c, run, n - 1) == Complete(DataOf(run, s, n))
  {
    assert s < n;
    DeliversExactly(c, run, n - 1);
    hide AllWellFormed, Chain, FullChain, Reported, DataOf;
  }

  lemma KeptLast(c: Config, run: seq<Arrival>, n: nat)
    requires n < |run|
    ensures Kept(c, run[..n + 1]) == Kept(c, run[..n]) + if WellFormed(c, run[n].frame) then [run[n]] else []
  {
    hide WellFormed;
    assert run[..n + 1][..n] == run[..n];
  }

  /** A well-formed frame is answered as it would be without the ill-formed ones before it. */
  lemma LastReported(c: Config, run: seq<Arrival>, n: nat)
    requires n < |run| && WellFormed(c, run[n].frame)
    ensures var kept := Kept(c, run[..n + 1]); kept != [] && Reported(c, kept, |kept| - 1) == Reported(c, run, n)
  {
    var kept, before := Kept(c, run[..n + 1]), Kept(c, run[..n]);
    KeptLast(c, run, n);
    assert run == run[..n] + run[n..];
    AfterPrefix(c, run[..n], run[n..], n);
    IllFormedIgnored(c, run[..n]);
    AfterPrefix(c, before, [run[n]], |before|);
    hide Pushed, WellFormed, Kept, After;
    assert kept[|before|] == run[n];
  }

  /**
   Any run at all from a cleared assembly: the push of arrival n completes a packet
   exactly when that frame is well formed and a full chain of the well-formed frames
   so far ends with it, and it returns that chain's data.
   */
  lemma DeliversExactlyInAnyRun(c: Config, run: seq<Arrival>, n: nat)
    requires n < |run|
    ensures var kept := Kept(c, run[..n + 1]);
      && AllWellFormed(c, kept)
      && if WellFormed(c, run[n].frame) then Ends(c, kept, |kept|, Reported(c, run, n)) else Reported(c, run, n) == InvalidFrame
  {
    var kept := Kept(c, run[..n + 1]);
    KeptWellFormed(c, run[..n + 1]);
    if WellFormed(c, run[n].frame) {
      LastReported(c, run, n);
      DeliversExactly(c, kept, |kept| - 1);
    }
    hide Ends, WellFormed, Kept, After, AllWellFormed;
  }
}
