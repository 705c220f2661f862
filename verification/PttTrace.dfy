/** The calls a runtime makes to its backend, and what a sound sequence of them looks like. */
module PttTrace {
  import opened Bits

  datatype Call =
    | NowIs(t: nat)
    | BusyIs(busy: bool)
    | Ptt(on: bool, ok: bool)
    | Sleep(ms: nat, ok: bool)
    | Audio(ok: bool)
    | Send(frame: seq<Byte>, ok: bool)
    | WaitAudio(ok: bool)

  datatype Key = Off | On | Broken

  function NextKey(k: Key, c: Call): Key {
    match c
    case Ptt(true, ok) => if k != Off then Broken else if ok then On else Off
    case Ptt(false, _) => if k == On then Off else Broken
    case Send(_, _) => if k == On then On else Broken
    case WaitAudio(_) => if k == On then On else Broken
    case _ => k
  }

  /** Key-ups and key-downs in turn, audio only while keyed. */
  function KeyState(calls: seq<Call>): Key {
    if calls == [] then Off else NextKey(KeyState(calls[..|calls| - 1]), calls[|calls| - 1])
  }

  /** The frames handed over successfully, in order. */
  function SentFrames(calls: seq<Call>): seq<seq<Byte>> {
    if calls == [] then []
    else
      var c := calls[|calls| - 1];
      SentFrames(calls[..|calls| - 1]) + if c.Send? && c.ok then [c.frame] else []
  }

  lemma OneMore(calls: seq<Call>, c: Call)
    ensures KeyState(calls + [c]) == NextKey(KeyState(calls), c)
    ensures SentFrames(calls + [c]) == SentFrames(calls) + if c.Send? && c.ok then [c.frame] else []
  {
    assert (calls + [c])[..|calls|] == calls;
  }

  predicate KeyUp(c: Call) {
    c.Ptt? && c.on && c.ok
  }

  predicate KeyDown(c: Call) {
    c.Ptt? && !c.on
  }

  /** The transmitter is keyed at the end, by the key-up at i, and not touched since. */
  predicate KeyedSince(calls: seq<Call>, i: nat) {
    i < |calls| && KeyUp(calls[i]) && forall k | i < k < |calls| :: !calls[k].Ptt?
  }

  lemma {:induction false} OnMeansKeyed(calls: seq<Call>) returns (i: nat)
    requires KeyState(calls) == On
    ensures KeyedSince(calls, i)
  {
    var n := |calls| - 1;
    if KeyState(calls[..n]) == On && !calls[n].Ptt? {
      i := OnMeansKeyed(calls[..n]);
    } else {
      i := n;
    }
  }

  lemma {:induction false} NeverBroken(calls: seq<Call>, n: nat)
    requires n <= |calls| && KeyState(calls) != Broken
    ensures KeyState(calls[..n]) != Broken
    decreases |calls|
  {
    if n == |calls| {
      assert calls[..n] == calls;
    } else {
      NeverBroken(calls[..|calls| - 1], n);
      assert calls[..|calls| - 1][..n] == calls[..n];
    }
  }

  /** Each successful key-up is followed by a key-down before any other key operation. */
  lemma {:induction false} KeyUpIsReleased(calls: seq<Call>, i: nat) returns (j: nat)
    requires KeyState(calls) == Off && i < |calls| && KeyUp(calls[i])
    ensures i < j < |calls| && KeyDown(calls[j]) && forall k | i < k < j :: !calls[k].Ptt?
    decreases |calls|
  {
    var n := |calls| - 1;
    if KeyState(calls[..n]) == Off {
      j := KeyUpIsReleased(calls[..n], i);
    } else {
      var s := OnMeansKeyed(calls[..n]);
      if s == i {
        j := n;
      } else {
        assert i < s;
        ReleasedBefore(calls[..n], s);
        assert calls[..n][..s] == calls[..s];
        j := KeyUpIsReleased(calls[..s], i);
      }
    }
  }

  lemma ReleasedBefore(calls: seq<Call>, s: nat)
    requires KeyState(calls) == On && KeyedSince(calls, s)
    ensures KeyState(calls[..s]) == Off
  {
    NeverBroken(calls, s + 1);
    assert calls[..s + 1][..s] == calls[..s];
  }

  /** Audio is sent only between a key-up and its key-down. */
  lemma AudioIsKeyed(calls: seq<Call>, k: nat) returns (i: nat)
    requires KeyState(calls) == Off && k < |calls| && (calls[k].Send? || calls[k].WaitAudio?)
    ensures i < k && KeyUp(calls[i]) && forall m | i < m < k :: !calls[m].Ptt?
  {
    NeverBroken(calls, k + 1);
    assert calls[..k + 1][..k] == calls[..k];
    i := OnMeansKeyed(calls[..k]);
  }
}
