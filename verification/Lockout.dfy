/** Locking a principal out after repeated failures (internal/store/principals.go). */
module Lockout {

  /** Instants and durations are in nanoseconds; the table stores whole seconds. */
  type Time = nat
  const SECOND: nat := 1_000_000_000

  datatype Option<+T> = None | Some(value: T)

  datatype Policy = Policy(maxFailures: int, interval: int, duration: int)

  /** The counters of a principal row, in seconds as stored. */
  datatype Counters = Counters(failCount: nat, lastFailure: Option<nat>, lockedUntil: Option<nat>)

  /** What happens to a principal: an authentication that fails or succeeds, a new key version, or an
      administrator's unlock. */
  datatype Event = Failure(now: Time) | Success(now: Time) | Rekey(now: Time) | Unlock(now: Time)

  function Seconds(t: Time): nat {
    t / SECOND
  }

  /** The distance the store measures: from the second of the last failure. */
  function Gap(last: nat, now: Time): int {
    now - last * SECOND
  }

  predicate TooOld(p: Policy, last: nat, now: Time) {
    p.interval > 0 && Gap(last, now) > p.interval
  }

  /** Zero disables lockout, and a lock needs a duration. */
  predicate Locks(p: Policy, fails: nat) {
    p.maxFailures > 0 && fails >= p.maxFailures && p.duration > 0
  }

  function Recorded(p: Policy, c: Counters, e: Event): Counters {
    match e
    case Failure(now) =>
      var fails := (if c.lastFailure.Some? && TooOld(p, c.lastFailure.value, now) then 0 else c.failCount) + 1;
      Counters(fails, Some(Seconds(now)), if Locks(p, fails) then Some(Seconds(now + p.duration)) else None)
    case _ => c.(failCount := 0, lockedUntil := None)
  }

  function Replay(p: Policy, h: seq<Event>): Counters {
    if h == [] then Counters(0, None, None) else Recorded(p, Replay(p, h[..|h| - 1]), h[|h| - 1])
  }

  predicate LockedAt(c: Counters, t: Time) {
    c.lockedUntil.Some? && t < c.lockedUntil.value * SECOND
  }

  // ----- What the history says -----

  /** A failure follows another in time: counted from the second of the other, within the interval, if one is
      set. */
  predicate Follows(p: Policy, before: Time, now: Time) {
    p.interval <= 0 || now - (before / SECOND) * SECOND <= p.interval
  }

  /** The last `n` events are failures, each within the interval of the one before it. */
  predicate IsBurst(p: Policy, h: seq<Event>, n: nat) {
    && n <= |h|
    && (forall i | |h| - n <= i < |h| :: h[i].Failure?)
    && (forall i | |h| - n < i < |h| :: Follows(p, h[i - 1].now, h[i].now))
  }

  /** `n` is the length of the current burst of failures. */
  ghost predicate IsCurrentBurst(p: Policy, h: seq<Event>, n: nat) {
    IsBurst(p, h, n) && !IsBurst(p, h, n + 1)
  }

  lemma BurstShrinks(p: Policy, h: seq<Event>, n: nat, m: nat)
    requires IsBurst(p, h, n) && m <= n
    ensures IsBurst(p, h, m)
  {
  }

  /** A failure extends the burst before it, unless that has grown too old. */
  lemma BurstGrows(p: Policy, h: seq<Event>, now: Time, n: nat)
    ensures IsBurst(p, h + [Failure(now)], n + 1) <==>
            IsBurst(p, h, n) && (n > 0 ==> Follows(p, h[|h| - 1].now, now))
  {
    var k := h + [Failure(now)];
    if IsBurst(p, k, n + 1) {
      assert forall i | |h| - n <= i < |h| :: k[i] == h[i];
      if n > 0 { assert Follows(p, k[|h| - 1].now, k[|h|].now); }
      forall i | |h| - n < i < |h| ensures Follows(p, h[i - 1].now, h[i].now) {
        assert Follows(p, k[i - 1].now, k[i].now);
      }
    }
    if IsBurst(p, h, n) && (n > 0 ==> Follows(p, h[|h| - 1].now, now)) {
      forall i | |k| - (n + 1) < i < |k| ensures Follows(p, k[i - 1].now, k[i].now) {
        if i < |h| { assert Follows(p, h[i - 1].now, h[i].now); }
      }
    }
  }

  /** After every history the failure count is the length of the current burst, and a principal whose
      last event is a failure remembers its second. */
  lemma {:induction false} CountIsBurst(p: Policy, h: seq<Event>)
    ensures IsCurrentBurst(p, h, Replay(p, h).failCount)
    ensures Replay(p, h).failCount > 0 ==> h[|h| - 1].Failure? && Replay(p, h).lastFailure == Some(Seconds(h[|h| - 1].now))
    decreases |h|
  {
    if h != [] {
      var before, e := h[..|h| - 1], h[|h| - 1];
      assert h == before + [e];
      CountIsBurst(p, before);
      if e.Failure? {
        var n := Replay(p, before).failCount;
        BurstGrows(p, before, e.now, n);
        BurstGrows(p, before, e.now, n + 1);
        BurstGrows(p, before, e.now, 0);
        BurstGrows(p, before, e.now, 1);
      } else {
        assert !IsBurst(p, h, 1);
      }
    }
  }

  /** A failure locks the principal exactly when the burst it ends has reached the limit, with lockout
      enabled and a positive duration; until then, and after any other event, it is not locked. */
  lemma LocksExactlyAtLimit(p: Policy, h: seq<Event>, e: Event, n: nat)
    requires IsCurrentBurst(p, h + [e], n)
    ensures Replay(p, h + [e]).lockedUntil ==
            if e.Failure? && p.maxFailures > 0 && n >= p.maxFailures && p.duration > 0
            then Some((e.now + p.duration) / SECOND) else None
    ensures forall t: Time :: LockedAt(Replay(p, h + [e]), t) <==>
              && e.Failure? && p.maxFailures > 0 && n >= p.maxFailures && p.duration > 0
              && t < (e.now + p.duration) / SECOND * SECOND
  {
    var k := h + [e];
    assert k[..|k| - 1] == h && k[|k| - 1] == e;
    CountIsBurst(p, k);
    var m := Replay(p, k).failCount;
    if m < n { BurstShrinks(p, k, n, m + 1); }
    if n < m { BurstShrinks(p, k, m, n + 1); }
  }

  // ----- The row as the code updates it -----

  class Row {
    var failCount: nat
    var lastFailure: Option<nat>
    var lockedUntil: Option<nat>

    constructor ()
      ensures State() == Counters(0, None, None)
    {
      failCount, lastFailure, lockedUntil := 0, None, None;
    }

    ghost function State(): Counters
      reads this
    {
      Counters(failCount, lastFailure, lockedUntil)
    }

    method RecordAuthResult(ok: bool, p: Policy, now: Time)
      modifies this
      ensures State() == Recorded(p, old(State()), if ok then Success(now) else Failure(now))
    {
      if ok {
        failCount, lockedUntil := 0, None;
        return;
      }
      var fails := failCount;
      if p.interval > 0 && lastFailure.Some? {
        if Gap(lastFailure.value, now) > p.interval {
          fails := 0;
        }
      }
      fails := fails + 1;
      var lockUntil: Option<nat> := None;
      if p.maxFailures > 0 && fails >= p.maxFailures && p.duration > 0 {
        lockUntil := Some(Seconds(now + p.duration));
      }
      failCount, lockedUntil, lastFailure := fails, lockUntil, Some(Seconds(now));
    }
  }
}
