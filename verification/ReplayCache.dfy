/** The replay cache of the TGS exchange (internal/kdc/replay.go): a map that forgets, which has to
    decide as a set that never does. */
module ReplayCache {

  type Time = nat

  /** What distinguishes two authenticators. The source keys its map with a digest of these fields;
      the model keys it with the fields themselves. */
  datatype Authenticator = Authenticator(crealm: string, cname: string, ctime: Time, cusec: nat, ticketDigest: string)

  datatype Cache = Cache(entries: map<Authenticator, Time>, lastSweep: Time)

  const EMPTY := Cache(map[], 0)

  /** Drops what is older than the window, at most once every quarter of a window. */
  function Swept(c: Cache, window: nat, now: Time): Cache {
    if now - c.lastSweep < window / 4 then c
    else Cache(map k | k in c.entries && c.entries[k] >= now - window :: c.entries[k], now)
  }

  function Recorded(c: Cache, window: nat, a: Authenticator, now: Time): Cache {
    var s := Swept(c, window, now);
    if a in s.entries then s else s.(entries := s.entries[a := now])
  }

  predicate Seen(c: Cache, window: nat, a: Authenticator, now: Time) {
    a in Swept(c, window, now).entries
  }

  // ----- A receiver: the skew check, then the cache -----

  /** One authenticator arriving. The receiver reads the clock twice: once for the skew check and once
      more inside the cache. */
  datatype Call = Call(a: Authenticator, checked: Time, recorded: Time)

  predicate WithinSkew(call: Call, skew: nat) {
    call.checked <= call.a.ctime + skew && call.a.ctime <= call.checked + skew
  }

  function Receive(c: Cache, skew: nat, window: nat, call: Call): (Cache, bool) {
    if !WithinSkew(call, skew) then (c, false)
    else (Recorded(c, window, call.a, call.recorded), !Seen(c, window, call.a, call.recorded))
  }

  /** The cache after a run, and the decisions it took. */
  function Run(skew: nat, window: nat, calls: seq<Call>): (r: (Cache, seq<bool>))
    ensures |r.1| == |calls|
  {
    if calls == [] then (EMPTY, [])
    else
      var (c, before) := Run(skew, window, calls[..|calls| - 1]);
      var (c', ok) := Receive(c, skew, window, calls[|calls| - 1]);
      (c', before + [ok])
  }

  /** The reference: everything ever accepted, and the decisions of a receiver that remembers it all. */
  function Remembering(skew: nat, calls: seq<Call>): (r: (set<Authenticator>, seq<bool>))
    ensures |r.1| == |calls|
  {
    if calls == [] then ({}, [])
    else
      var (all, before) := Remembering(skew, calls[..|calls| - 1]);
      var call := calls[|calls| - 1];
      if WithinSkew(call, skew) then (all + {call.a}, before + [call.a !in all])
      else (all, before + [false])
  }

  /** The clock never goes back, and the second reading of a call is at most `delay` after the first. */
  ghost predicate Timely(calls: seq<Call>, delay: nat) {
    && (forall i | 0 <= i < |calls| :: calls[i].checked <= calls[i].recorded <= calls[i].checked + delay)
    && (forall i, j | 0 <= i < j < |calls| :: calls[i].recorded <= calls[j].recorded)
  }

  /** Every authenticator ever accepted is still in the cache, or can no longer pass the skew check of
      a call recorded from now on. */
  ghost predicate Remembers(c: Cache, all: set<Authenticator>, skew: nat, delay: nat, now: Time) {
    && c.entries.Keys <= all
    && c.lastSweep <= now
    && (forall k <- c.entries :: k.ctime <= c.entries[k] + skew && c.entries[k] <= now)
    && (forall k <- all :: k !in c.entries ==> k.ctime + skew + delay < now)
  }

  lemma ReceiveRemembers(c: Cache, all: set<Authenticator>, skew: nat, window: nat, delay: nat, now: Time, call: Call)
    requires window >= 2 * skew + delay
    requires Remembers(c, all, skew, delay, now)
    requires now <= call.recorded && call.checked <= call.recorded <= call.checked + delay
    requires WithinSkew(call, skew)
    ensures Seen(c, window, call.a, call.recorded) <==> call.a in all
    ensures Remembers(Recorded(c, window, call.a, call.recorded), all + {call.a}, skew, delay, call.recorded)
  {
    var s := Swept(c, window, call.recorded);
    forall k <- all | k !in s.entries
      ensures k.ctime + skew + delay < call.recorded
    {
      if k in c.entries { assert c.entries[k] < call.recorded - window; }
    }
  }

  lemma {:induction false} RunAgrees(skew: nat, window: nat, delay: nat, calls: seq<Call>, now: Time)
    requires window >= 2 * skew + delay && Timely(calls, delay)
    requires forall i | 0 <= i < |calls| :: calls[i].recorded <= now
    ensures Run(skew, window, calls).1 == Remembering(skew, calls).1
    ensures Remembers(Run(skew, window, calls).0, Remembering(skew, calls).0, skew, delay, now)
    decreases |calls|
  {
    if calls != [] {
      var before := calls[..|calls| - 1];
      var call := calls[|calls| - 1];
      assert forall i | 0 <= i < |before| :: before[i] == calls[i];
      RunAgrees(skew, window, delay, before, call.recorded);
      if WithinSkew(call, skew) {
        ReceiveRemembers(Run(skew, window, before).0, Remembering(skew, before).0, skew, window, delay, call.recorded, call);
      }
    }
  }

  /** The shortest run on which a window that is too small forgets: the same authenticator first at the
      early edge of its skew, then at the late edge. */
  function LateReplay(skew: nat, delay: nat): seq<Call> {
    var a := Authenticator("", "", skew, 0, "");
    [Call(a, 0, 0), Call(a, 2 * skew, 2 * skew + delay)]
  }

  lemma LateReplayIsAccepted(skew: nat, window: nat, delay: nat)
    requires window < 2 * skew + delay
    ensures Timely(LateReplay(skew, delay), delay)
    ensures Run(skew, window, LateReplay(skew, delay)).1 == [true, true]
    ensures Remembering(skew, LateReplay(skew, delay)).1 == [true, false]
  {
    var calls := LateReplay(skew, delay);
    var one := calls[..|calls| - 1];
    assert one[..|one| - 1] == [] && one[|one| - 1] == calls[0] && WithinSkew(calls[0], skew);
    var empty: seq<bool> := [];
    assert Run(skew, window, []) == (EMPTY, empty) && empty + [true] == [true];
    assert Run(skew, window, one) == (Recorded(EMPTY, window, calls[0].a, 0), [true]);
    assert Remembering(skew, one).0 == {calls[0].a} && Remembering(skew, one).1 == [true];
  }

  /** The forgetting cache decides as the remembering set does in every run exactly when its window
      covers the skew twice over and the delay between the two clock readings. The source sets the
      window to twice the skew, so it agrees when a call uses one clock reading, and only then. */
  lemma AgreesIffWindowCovers(skew: nat, window: nat, delay: nat)
    ensures (forall calls: seq<Call> :: Timely(calls, delay) ==>
               Run(skew, window, calls).1 == Remembering(skew, calls).1)
            <==> window >= 2 * skew + delay
  {
    if window >= 2 * skew + delay {
      forall calls: seq<Call> | Timely(calls, delay)
        ensures Run(skew, window, calls).1 == Remembering(skew, calls).1
      {
        RunAgrees(skew, window, delay, calls, if calls == [] then 0 else calls[|calls| - 1].recorded);
      }
    } else {
      LateReplayIsAccepted(skew, window, delay);
    }
  }

  lemma {:induction false} RememberingAcceptsOnce(skew: nat, calls: seq<Call>, i: nat)
    requires i < |calls|
    ensures Remembering(skew, calls).1[i] ==> calls[i].a in Remembering(skew, calls).0
    ensures forall j: nat | j < i && Remembering(skew, calls).1[i] && Remembering(skew, calls).1[j] :: calls[j].a != calls[i].a
    decreases |calls|
  {
    var before := calls[..|calls| - 1];
    if i < |before| {
      RememberingAcceptsOnce(skew, before, i);
    } else {
      forall j: nat | j < i && Remembering(skew, calls).1[i] && Remembering(skew, calls).1[j]
        ensures calls[j].a != calls[i].a
      {
        RememberingAcceptsOnce(skew, before, j);
      }
    }
  }

  /** With the source's window and one clock reading a call, no authenticator is accepted twice. */
  lemma NoAuthenticatorTwice(skew: nat, calls: seq<Call>, i: nat, j: nat)
    requires Timely(calls, 0) && i < j < |calls|
    requires Run(skew, 2 * skew, calls).1[i] && Run(skew, 2 * skew, calls).1[j]
    ensures calls[i].a != calls[j].a
  {
    AgreesIffWindowCovers(skew, 2 * skew, 0);
    assert Run(skew, 2 * skew, calls).1 == Remembering(skew, calls).1;
    RememberingAcceptsOnce(skew, calls, j);
  }

  lemma {:induction false} RunBounded(skew: nat, window: nat, delay: nat, calls: seq<Call>)
    requires Timely(calls, delay)
    ensures var c := Run(skew, window, calls).0;
            && (calls == [] ==> c == EMPTY)
            && (forall k <- c.entries :: c.lastSweep - window <= c.entries[k])
            && (forall i | 0 <= i < |calls| && WithinSkew(calls[i], skew) :: c.lastSweep <= calls[|calls| - 1].recorded)
            && ((forall i | 0 <= i < |calls| :: !WithinSkew(calls[i], skew)) ==> c == EMPTY)
    decreases |calls|
  {
    if calls != [] {
      var before := calls[..|calls| - 1];
      assert forall i | 0 <= i < |before| :: before[i] == calls[i];
      RunBounded(skew, window, delay, before);
    }
  }

  /** Right after any call the cache handles, nothing in it is older than a window and a quarter. */
  lemma EntriesAreRecent(skew: nat, window: nat, delay: nat, calls: seq<Call>, k: Authenticator)
    requires Timely(calls, delay) && calls != [] && WithinSkew(calls[|calls| - 1], skew)
    requires k in Run(skew, window, calls).0.entries
    ensures calls[|calls| - 1].recorded - Run(skew, window, calls).0.entries[k] <= window + window / 4
  {
    var before := calls[..|calls| - 1];
    assert forall i | 0 <= i < |before| :: before[i] == calls[i];
    RunBounded(skew, window, delay, before);
  }

  /** The i-th call was accepted with this authenticator at this instant. */
  predicate AcceptedAt(skew: nat, window: nat, calls: seq<Call>, i: nat, k: Authenticator, at: Time) {
    i < |calls| && Run(skew, window, calls).1[i] && calls[i].a == k && calls[i].recorded == at
  }

  lemma AcceptedBefore(skew: nat, window: nat, calls: seq<Call>, i: nat, k: Authenticator, at: Time)
    requires calls != [] && AcceptedAt(skew, window, calls[..|calls| - 1], i, k, at)
    ensures AcceptedAt(skew, window, calls, i, k, at)
  {
  }

  /** What the cache holds of an authenticator is the instant at which it was accepted; refusing it again does
      not renew that. */
  lemma {:induction false} EntriesAreAcceptances(skew: nat, window: nat, calls: seq<Call>, k: Authenticator)
    ensures k in Run(skew, window, calls).0.entries ==>
              exists i: nat :: AcceptedAt(skew, window, calls, i, k, Run(skew, window, calls).0.entries[k])
    decreases |calls|
  {
    if calls != [] && k in Run(skew, window, calls).0.entries {
      var before := calls[..|calls| - 1];
      var c := Run(skew, window, before).0;
      EntriesAreAcceptances(skew, window, before, k);
      if k in c.entries && c.entries[k] == Run(skew, window, calls).0.entries[k] {
        var i: nat :| AcceptedAt(skew, window, before, i, k, c.entries[k]);
        AcceptedBefore(skew, window, calls, i, k, c.entries[k]);
      } else {
        assert AcceptedAt(skew, window, calls, |calls| - 1, k, Run(skew, window, calls).0.entries[k]);
      }
    }
  }

  // ----- The cache as the code runs it -----

  class Replay {
    var entries: map<Authenticator, Time>
    var lastSweep: Time
    const window: nat

    constructor (window: nat)
      ensures Contents() == EMPTY && this.window == window
    {
      entries := map[];
      lastSweep := 0;
      this.window := window;
    }

    ghost function Contents(): Cache
      reads this
    {
      Cache(entries, lastSweep)
    }

    method Sweep(now: Time)
      modifies this
      ensures Contents() == Swept(old(Contents()), window, now)
    {
      if now - lastSweep < window / 4 {
        return;
      }
      lastSweep := now;
      var cutoff := now - window;
      var todo := entries.Keys;
      while todo != {}
        invariant lastSweep == now && todo <= entries.Keys
        invariant entries == map k | k in old(entries) && (k in todo || old(entries)[k] >= cutoff) :: old(entries)[k]
        decreases todo
      {
        var k :| k in todo;
        todo := todo - {k};
        if entries[k] < cutoff {
          entries := entries - {k};
        }
      }
      assert entries == Swept(old(Contents()), window, now).entries;
    }

    /** Records an authenticator and reports whether it had already been recorded. */
    method Note(a: Authenticator, now: Time) returns (dup: bool)
      modifies this
      ensures dup == Seen(old(Contents()), window, a, now)
      ensures Contents() == Recorded(old(Contents()), window, a, now)
    {
      Sweep(now);
      if a in entries {
        return true;
      }
      entries := entries[a := now];
      dup := false;
    }

    /** The receiver: the skew check comes first, and only then does the cache see the authenticator. */
    method Accept(call: Call, skew: nat) returns (ok: bool)
      modifies this
      ensures (Contents(), ok) == Receive(old(Contents()), skew, window, call)
    {
      if !WithinSkew(call, skew) {
        return false;
      }
      var dup := Note(call.a, call.recorded);
      ok := !dup;
    }
  }
}
