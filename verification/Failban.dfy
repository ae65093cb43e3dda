/** The limiter on failed attempts (internal/failban/failban.go): a table that filters, prunes and
    forgets, which has to block as one that remembers every attempt. */
module Failban {

  type Time = nat

  datatype Config = Config(
    enabled: bool, threshold: int, window: nat, blockFor: nat, pruneEvery: nat, pruneOlder: nat)

  datatype Source = Source(failures: seq<Time>, lastSeen: Time, blockedTo: Time)

  datatype Limiter = Limiter(sources: map<string, Source>, nextPrune: Time)

  datatype Event =
    | Asked(addr: string, now: Time)
    | Failed(addr: string, now: Time)
    | Succeeded(addr: string, now: Time)

  /** The instants after a cutoff, in order. */
  function After(ts: seq<Time>, cutoff: int): seq<Time> {
    if ts == [] then []
    else if ts[|ts| - 1] > cutoff then After(ts[..|ts| - 1], cutoff) + [ts[|ts| - 1]]
    else After(ts[..|ts| - 1], cutoff)
  }

  // ----- The limiter -----

  predicate Stale(cfg: Config, s: Source, now: Time) {
    s.lastSeen < now - cfg.pruneOlder && now > s.blockedTo
  }

  function Pruned(cfg: Config, l: Limiter, now: Time): Limiter {
    if now < l.nextPrune then l
    else Limiter(map a | a in l.sources && !Stale(cfg, l.sources[a], now) :: l.sources[a], now + cfg.pruneEvery)
  }

  function Get(l: Limiter, addr: string): Source {
    if addr in l.sources then l.sources[addr] else Source([], 0, 0)
  }

  /** A source after one more failure: only failures inside the window count, and enough of them start
      a block and a clean slate. */
  function Noted(cfg: Config, s: Source, now: Time): Source {
    var kept := After(s.failures, now - cfg.window) + [now];
    if cfg.threshold > 0 && |kept| >= cfg.threshold then Source([], now, now + cfg.blockFor)
    else Source(kept, now, s.blockedTo)
  }

  /** One event, and the answer to the question whether the source is blocked. */
  function Step(cfg: Config, l: Limiter, e: Event): (Limiter, bool) {
    if !cfg.enabled then (l, false)
    else match e
         case Asked(addr, now) =>
           var p := Pruned(cfg, l, now);
           if addr !in p.sources then (p, false)
           else (p.(sources := p.sources[addr := p.sources[addr].(lastSeen := now)]), now < p.sources[addr].blockedTo)
         case Failed(addr, now) => (l.(sources := l.sources[addr := Noted(cfg, Get(l, addr), now)]), false)
         case Succeeded(addr, now) =>
           if addr !in l.sources then (l, false)
           else (l.(sources := l.sources[addr := l.sources[addr].(failures := [], lastSeen := now)]), false)
  }

  /** The limiter after a history, and every answer it gave. */
  function Run(cfg: Config, start: Time, h: seq<Event>): (Limiter, seq<bool>) {
    if h == [] then (Limiter(map[], start), [])
    else
      var (l, answers) := Run(cfg, start, h[..|h| - 1]);
      var (l', answer) := Step(cfg, l, h[|h| - 1]);
      (l', answers + [answer])
  }

  // ----- The reference: what the history says -----

  /** The failures of an address since its last success or block, all of them, and the end of its last
      block. */
  datatype Past = Past(failures: seq<Time>, blockedTo: Time)

  function PastOf(cfg: Config, h: seq<Event>, addr: string): Past {
    if h == [] then Past([], 0) else Extended(cfg, PastOf(cfg, h[..|h| - 1], addr), h[|h| - 1], addr)
  }

  /** What one more event does to the past of an address. */
  function Extended(cfg: Config, past: Past, e: Event, addr: string): Past {
    if e.addr != addr || e.Asked? then past
    else if e.Succeeded? then past.(failures := [])
    else if StartsBlock(cfg, past, e.now) then Past([], e.now + cfg.blockFor)
    else past.(failures := past.failures + [e.now])
  }

  /** A failure starts a block when it and the failures within the window reach the threshold. */
  predicate StartsBlock(cfg: Config, past: Past, now: Time) {
    cfg.threshold > 0 && |After(past.failures, now - cfg.window)| + 1 >= cfg.threshold
  }

  function Answers(cfg: Config, h: seq<Event>): seq<bool> {
    if h == [] then []
    else
      var before := h[..|h| - 1];
      var e := h[|h| - 1];
      Answers(cfg, before) + [cfg.enabled && e.Asked? && e.now < PastOf(cfg, before, e.addr).blockedTo]
  }

  predicate Monotone(h: seq<Event>, start: Time, end: Time) {
    && (forall i, j | 0 <= i < j < |h| :: h[i].now <= h[j].now)
    && (forall i | 0 <= i < |h| :: start <= h[i].now <= end)
  }

  // ----- Filtering -----

  predicate AtMost(ts: seq<Time>, bound: int) {
    forall i | 0 <= i < |ts| :: ts[i] <= bound
  }

  lemma {:induction false} AfterAfter(ts: seq<Time>, c: int, d: int)
    requires c <= d
    ensures After(After(ts, c), d) == After(ts, d)
    decreases |ts|
  {
    if ts != [] {
      var rest := After(ts[..|ts| - 1], c);
      AfterAfter(ts[..|ts| - 1], c, d);
      assert (rest + [ts[|ts| - 1]])[..|rest|] == rest;
    }
  }

  lemma AfterLast(ts: seq<Time>, t: Time, c: int)
    ensures After(ts + [t], c) == if t > c then After(ts, c) + [t] else After(ts, c)
  {
    assert (ts + [t])[..|ts|] == ts;
  }

  lemma {:induction false} AfterAll(ts: seq<Time>, c: int)
    requires AtMost(ts, c)
    ensures After(ts, c) == []
    decreases |ts|
  {
    if ts != [] { AfterAll(ts[..|ts| - 1], c); }
  }

  lemma {:induction false} AfterWithin(ts: seq<Time>, c: int, bound: Time)
    requires AtMost(ts, bound)
    ensures AtMost(After(ts, c), bound)
    decreases |ts|
  {
    if ts != [] { AfterWithin(ts[..|ts| - 1], c, bound); }
  }

  // ----- Agreement -----

  /** From `now` on, the two lists of failures look the same through the window. */
  ghost predicate SameView(cfg: Config, a: seq<Time>, b: seq<Time>, now: Time) {
    forall c: int | c >= now - cfg.window :: After(a, c) == After(b, c)
  }

  /** The two ends of a block are the same, or both have passed. */
  predicate SameBlock(a: Time, b: Time, now: Time) {
    a == b || (a <= now && b <= now)
  }

  /** What the table knows about an address, present or pruned, is what its history still says. */
  ghost predicate Tracks(cfg: Config, l: Limiter, past: Past, addr: string, now: Time) {
    var s := Get(l, addr);
    && SameView(cfg, s.failures, past.failures, now)
    && SameBlock(s.blockedTo, past.blockedTo, now)
    && s.lastSeen <= now && AtMost(s.failures, s.lastSeen)
  }

  lemma TracksLater(cfg: Config, l: Limiter, past: Past, addr: string, now: Time, later: Time)
    requires Tracks(cfg, l, past, addr, now) && now <= later
    ensures Tracks(cfg, l, past, addr, later)
  {
  }

  lemma PruneTracks(cfg: Config, l: Limiter, past: Past, addr: string, now: Time)
    requires cfg.pruneOlder + 1 >= cfg.window
    requires Tracks(cfg, l, past, addr, now)
    ensures Tracks(cfg, Pruned(cfg, l, now), past, addr, now)
  {
    var p := Pruned(cfg, l, now);
    if addr in l.sources && addr !in p.sources {
      var s := l.sources[addr];
      forall c: int | c >= now - cfg.window ensures After([], c) == After(past.failures, c) {
        assert After(s.failures, c) == After(past.failures, c);
        AfterAll(s.failures, c);
      }
    }
  }

  /** The filtered list and the full one look the same through the window after one more failure. */
  lemma SameViewAfter(cfg: Config, a: seq<Time>, b: seq<Time>, now: Time)
    requires SameView(cfg, a, b, now)
    ensures SameView(cfg, After(a, now - cfg.window) + [now], b + [now], now)
  {
    var cutoff := now - cfg.window;
    forall c: int | c >= cutoff ensures After(After(a, cutoff) + [now], c) == After(b + [now], c) {
      AfterAfter(a, cutoff, c);
      AfterLast(After(a, cutoff), now, c);
      AfterLast(b, now, c);
      assert After(a, c) == After(b, c);
    }
  }

  /** A source and its past start a block on the same failure. */
  lemma SameStart(cfg: Config, s: Source, past: Past, now: Time)
    requires After(s.failures, now - cfg.window) == After(past.failures, now - cfg.window)
    ensures Noted(cfg, s, now) ==
            if StartsBlock(cfg, past, now) then Source([], now, now + cfg.blockFor)
            else Source(After(s.failures, now - cfg.window) + [now], now, s.blockedTo)
  {
  }

  /** What one more failure leaves of a source and of its past. */
  lemma NotedTracks(cfg: Config, s: Source, past: Past, now: Time, kept: seq<Time>)
    requires kept == After(s.failures, now - cfg.window)
    requires SameView(cfg, kept + [now], past.failures + [now], now) && AtMost(kept, now)
    requires SameBlock(s.blockedTo, past.blockedTo, now)
    ensures var starts := StartsBlock(cfg, past, now);
            var n := if starts then Source([], now, now + cfg.blockFor) else Source(kept + [now], now, s.blockedTo);
            var p := if starts then Past([], now + cfg.blockFor) else past.(failures := past.failures + [now]);
            && SameView(cfg, n.failures, p.failures, now) && SameBlock(n.blockedTo, p.blockedTo, now) && AtMost(n.failures, now)
  {
  }

  lemma FailureTracks(cfg: Config, l: Limiter, past: Past, addr: string, now: Time)
    requires cfg.enabled && Tracks(cfg, l, past, addr, now)
    ensures Tracks(cfg, Step(cfg, l, Failed(addr, now)).0, Extended(cfg, past, Failed(addr, now), addr), addr, now)
  {
    var s := Get(l, addr);
    var kept := After(s.failures, now - cfg.window);
    assert kept == After(past.failures, now - cfg.window);
    SameStart(cfg, s, past, now);
    SameViewAfter(cfg, s.failures, past.failures, now);
    AfterWithin(s.failures, now - cfg.window, s.lastSeen);
    NotedTracks(cfg, s, past, now, kept);
  }

  lemma {:induction false} RunTracks(cfg: Config, start: Time, h: seq<Event>, now: Time, addr: string)
    requires cfg.enabled && cfg.pruneOlder + 1 >= cfg.window && Monotone(h, start, now)
    ensures Tracks(cfg, Run(cfg, start, h).0, PastOf(cfg, h, addr), addr, now)
    decreases |h|
  {
    if h != [] {
      var before, e := h[..|h| - 1], h[|h| - 1];
      assert forall i | 0 <= i < |before| :: before[i] == h[i];
      RunTracks(cfg, start, before, e.now, addr);
      var l := Run(cfg, start, before).0;
      var past := PastOf(cfg, before, addr);
      if e.Asked? {
        PruneTracks(cfg, l, past, addr, e.now);
      } else if e.addr == addr && e.Failed? {
        FailureTracks(cfg, l, past, addr, e.now);
      }
      TracksLater(cfg, Run(cfg, start, h).0, PastOf(cfg, h, addr), addr, e.now, now);
    }
  }

  /** Pruning at or beyond the window, the limiter answers every question as the history does. */
  lemma {:induction false} RunAnswers(cfg: Config, start: Time, h: seq<Event>, end: Time)
    requires cfg.pruneOlder + 1 >= cfg.window && Monotone(h, start, end)
    ensures Run(cfg, start, h).1 == Answers(cfg, h)
    decreases |h|
  {
    if h != [] {
      var before, e := h[..|h| - 1], h[|h| - 1];
      assert forall i | 0 <= i < |before| :: before[i] == h[i];
      RunAnswers(cfg, start, before, e.now);
      if cfg.enabled && e.Asked? {
        RunTracks(cfg, start, before, e.now, e.addr);
        PruneTracks(cfg, Run(cfg, start, before).0, PastOf(cfg, before, e.addr), e.addr, e.now);
      }
    }
  }

  /** In every history a failure starts a block in the table exactly when the failures since the last
      success or block that lie within the window, itself included, number at least the threshold. */
  lemma BlockStartsIff(cfg: Config, start: Time, h: seq<Event>, addr: string, now: Time)
    requires cfg.enabled && cfg.pruneOlder + 1 >= cfg.window && Monotone(h, start, now)
    ensures var l := Step(cfg, Run(cfg, start, h).0, Failed(addr, now)).0;
            l.sources[addr].failures == [] <==> StartsBlock(cfg, PastOf(cfg, h, addr), now)
    ensures var l := Step(cfg, Run(cfg, start, h).0, Failed(addr, now)).0;
            StartsBlock(cfg, PastOf(cfg, h, addr), now) ==> l.sources[addr].blockedTo == now + cfg.blockFor
  {
    RunTracks(cfg, start, h, now, addr);
    var s := Get(Run(cfg, start, h).0, addr);
    assert After(s.failures, now - cfg.window) == After(PastOf(cfg, h, addr).failures, now - cfg.window);
  }

  // ----- Where pruning loses a failure -----

  lemma PastMore(cfg: Config, h: seq<Event>, e: Event, addr: string)
    ensures PastOf(cfg, h + [e], addr) == Extended(cfg, PastOf(cfg, h, addr), e, addr)
  {
    assert (h + [e])[..|h|] == h;
  }

  lemma RunMore(cfg: Config, start: Time, h: seq<Event>, e: Event)
    ensures Run(cfg, start, h + [e]).0 == Step(cfg, Run(cfg, start, h).0, e).0
    ensures Run(cfg, start, h + [e]).1 == Run(cfg, start, h).1 + [Step(cfg, Run(cfg, start, h).0, e).1]
  {
    assert (h + [e])[..|h|] == h;
  }

  lemma AnswersMore(cfg: Config, h: seq<Event>, e: Event)
    ensures Answers(cfg, h + [e]) ==
            Answers(cfg, h) + [cfg.enabled && e.Asked? && e.now < PastOf(cfg, h, e.addr).blockedTo]
  {
    assert (h + [e])[..|h|] == h;
  }

  function Failures(n: nat, now: Time): seq<Event> {
    if n == 0 then [] else Failures(n - 1, now) + [Failed("a", now)]
  }

  function Copies(n: nat, t: Time): (r: seq<Time>)
    ensures |r| == n
  {
    if n == 0 then [] else Copies(n - 1, t) + [t]
  }

  lemma {:induction false} CopiesAfter(n: nat, t: Time, c: int)
    requires t > c
    ensures After(Copies(n, t), c) == Copies(n, t)
    decreases n
  {
    if n > 0 {
      CopiesAfter(n - 1, t, c);
      AfterLast(Copies(n - 1, t), t, c);
    }
  }

  /** The table after `n` failures of "a" at one instant, too few for a block. */
  function FailedTable(n: nat, t: Time): Limiter {
    Limiter(if n == 0 then map[] else map["a" := Source(Copies(n, t), t, 0)], t)
  }

  /** One more failure at the same instant, still too few. */
  lemma OneFailure(cfg: Config, n: nat, t: Time)
    requires cfg.enabled && cfg.window > 0 && n + 1 < cfg.threshold
    ensures Step(cfg, FailedTable(n, t), Failed("a", t)).0 == FailedTable(n + 1, t)
    ensures !StartsBlock(cfg, Past(Copies(n, t), 0), t)
  {
    CopiesAfter(n, t, t - cfg.window);
    assert Get(FailedTable(n, t), "a").failures == Copies(n, t);
    assert Copies(n + 1, t) == Copies(n, t) + [t];
  }

  lemma OneMoreInTable(cfg: Config, h: seq<Event>, n: nat, t: Time)
    requires cfg.enabled && cfg.window > 0 && n + 1 < cfg.threshold && Run(cfg, t, h).0 == FailedTable(n, t)
    ensures Run(cfg, t, h + [Failed("a", t)]).0 == FailedTable(n + 1, t)
  {
    RunMore(cfg, t, h, Failed("a", t));
    OneFailure(cfg, n, t);
  }

  lemma OneMoreInPast(cfg: Config, h: seq<Event>, n: nat, t: Time)
    requires cfg.enabled && cfg.window > 0 && n + 1 < cfg.threshold && PastOf(cfg, h, "a") == Past(Copies(n, t), 0)
    ensures PastOf(cfg, h + [Failed("a", t)], "a") == Past(Copies(n + 1, t), 0)
  {
    PastMore(cfg, h, Failed("a", t), "a");
    OneFailure(cfg, n, t);
  }

  lemma {:induction false} FailuresInTable(cfg: Config, n: nat, t: Time, h: seq<Event>)
    requires cfg.enabled && cfg.window > 0 && n < cfg.threshold && h == Failures(n, t)
    ensures Run(cfg, t, h).0 == FailedTable(n, t)
    decreases n
  {
    if n > 0 {
      FailuresInTable(cfg, n - 1, t, Failures(n - 1, t));
      OneMoreInTable(cfg, Failures(n - 1, t), n - 1, t);
    }
  }

  lemma {:induction false} FailuresInPast(cfg: Config, n: nat, t: Time)
    requires cfg.enabled && cfg.window > 0 && n < cfg.threshold
    ensures PastOf(cfg, Failures(n, t), "a") == Past(Copies(n, t), 0)
    decreases n
  {
    if n > 0 {
      var h := Failures(n - 1, t);
      assert Failures(n, t) == h + [Failed("a", t)];
      FailuresInPast(cfg, n - 1, t);
      OneMoreInPast(cfg, h, n - 1, t);
    }
  }

  lemma {:induction false} FailuresAt(n: nat, t: Time)
    ensures forall i | 0 <= i < |Failures(n, t)| :: Failures(n, t)[i] == Failed("a", t)
  {
    if n > 0 { FailuresAt(n - 1, t); }
  }

  /** One failure short of the threshold, then a question about another address that makes the table
      prune, then the last failure, then the question. */
  function Lapse(cfg: Config): seq<Event>
    requires cfg.threshold >= 1
  {
    LapseFrom(Failures(cfg.threshold - 1, 1), 2 + cfg.pruneOlder)
  }

  function LapseFrom(h: seq<Event>, t: Time): seq<Event> {
    h + [Asked("b", t)] + [Failed("a", t)] + [Asked("a", t)]
  }

  lemma LapseIsMonotone(cfg: Config)
    requires cfg.threshold >= 1
    ensures Monotone(Lapse(cfg), 1, 2 + cfg.pruneOlder)
  {
    FailuresAt(cfg.threshold - 1, 1);
  }

  /** What the history says at the end of the lapse: the last failure started a block. */
  lemma LapseBlocks(cfg: Config, h: seq<Event>, n: nat, t: Time)
    requires n + 1 == cfg.threshold && t < 1 + cfg.window && PastOf(cfg, h, "a") == Past(Copies(n, 1), 0)
    ensures PastOf(cfg, h + [Asked("b", t)] + [Failed("a", t)], "a") == Past([], t + cfg.blockFor)
  {
    PastMore(cfg, h, Asked("b", t), "a");
    PastMore(cfg, h + [Asked("b", t)], Failed("a", t), "a");
    LastFailureBlocks(cfg, n, t);
  }

  lemma LastFailureBlocks(cfg: Config, n: nat, t: Time)
    requires n + 1 == cfg.threshold && t < 1 + cfg.window
    ensures var past := Past(Copies(n, 1), 0);
            && Extended(cfg, past, Asked("b", t), "a") == past
            && Extended(cfg, past, Failed("a", t), "a") == Past([], t + cfg.blockFor)
  {
    CopiesAfter(n, 1, t - cfg.window);
  }

  lemma LastsDiffer(a: seq<bool>, b: seq<bool>)
    ensures a + [false] != b + [true]
  {
    assert (a + [false])[|a + [false]| - 1] == false && (b + [true])[|b + [true]| - 1] == true;
  }

  /** What the table answers at the end of the lapse. */
  lemma LapseForgets(cfg: Config, h: seq<Event>, n: nat, t: Time)
    requires cfg.enabled && cfg.threshold >= 2 && n > 0 && t == 2 + cfg.pruneOlder
    requires Run(cfg, 1, h).0 == FailedTable(n, 1)
    ensures var l := Run(cfg, 1, h + [Asked("b", t)] + [Failed("a", t)]).0; !Step(cfg, l, Asked("a", t)).1
  {
    RunMore(cfg, 1, h, Asked("b", t));
    RunMore(cfg, 1, h + [Asked("b", t)], Failed("a", t));
    PrunedAway(cfg, n, t);
  }

  lemma LastAnswerDiffers(cfg: Config, h: seq<Event>, e: Event)
    requires !Step(cfg, Run(cfg, 1, h).0, e).1
    requires cfg.enabled && e.Asked? && e.now < PastOf(cfg, h, e.addr).blockedTo
    ensures Run(cfg, 1, h + [e]).1 != Answers(cfg, h + [e])
  {
    RunMore(cfg, 1, h, e);
    AnswersMore(cfg, h, e);
    LastsDiffer(Run(cfg, 1, h).1, Answers(cfg, h));
  }

  lemma LapseAfter(cfg: Config, h: seq<Event>, n: nat, t: Time)
    requires cfg.enabled && n > 0 && n + 1 == cfg.threshold && cfg.blockFor > 0
    requires t == 2 + cfg.pruneOlder && t < 1 + cfg.window
    requires Run(cfg, 1, h).0 == FailedTable(n, 1) && PastOf(cfg, h, "a") == Past(Copies(n, 1), 0)
    ensures Run(cfg, 1, LapseFrom(h, t)).1 != Answers(cfg, LapseFrom(h, t))
  {
    LapseForgets(cfg, h, n, t);
    LapseBlocks(cfg, h, n, t);
    LastAnswerDiffers(cfg, h + [Asked("b", t)] + [Failed("a", t)], Asked("a", t));
  }

  lemma LapseIsMissed(cfg: Config)
    requires cfg.enabled && cfg.threshold >= 2 && cfg.blockFor > 0 && cfg.pruneOlder + 1 < cfg.window
    ensures Run(cfg, 1, Lapse(cfg)).1 != Answers(cfg, Lapse(cfg))
  {
    var n := cfg.threshold - 1;
    FailuresInTable(cfg, n, 1, Failures(n, 1));
    FailuresInPast(cfg, n, 1);
    LapseAfter(cfg, Failures(n, 1), n, 2 + cfg.pruneOlder);
  }

  /** The question about the other address forgets the failures, and so the last one is counted alone. */
  lemma PrunedAway(cfg: Config, n: nat, t: Time)
    requires cfg.enabled && cfg.threshold >= 2 && n > 0 && t == 2 + cfg.pruneOlder
    ensures var l1 := Step(cfg, FailedTable(n, 1), Asked("b", t)).0;
            var l2 := Step(cfg, l1, Failed("a", t)).0;
            !Step(cfg, l2, Asked("a", t)).1
  {
    var l1 := Step(cfg, FailedTable(n, 1), Asked("b", t)).0;
    assert l1.sources == map[];
    assert Noted(cfg, Get(l1, "a"), t) == Source([t], t, 0);
  }

  /** The limiter that prunes answers every history as the one that never forgets exactly when it keeps
      a silent source for the whole window, to the last tick. */
  lemma AgreesIffPruneCoversWindow(cfg: Config)
    requires cfg.enabled && cfg.threshold >= 2 && cfg.blockFor > 0
    ensures (forall h: seq<Event>, start: Time, end: Time :: Monotone(h, start, end) ==>
               Run(cfg, start, h).1 == Answers(cfg, h))
            <==> cfg.pruneOlder + 1 >= cfg.window
  {
    if cfg.pruneOlder + 1 >= cfg.window {
      forall h: seq<Event>, start: Time, end: Time | Monotone(h, start, end)
        ensures Run(cfg, start, h).1 == Answers(cfg, h)
      {
        RunAnswers(cfg, start, h, end);
      }
    } else {
      LapseIsMonotone(cfg);
      LapseIsMissed(cfg);
    }
  }

  // ----- The limiter as the code runs it -----

  /** The failures still inside the window, moved to the front of the slice they are in. */
  method KeepRecent(a: array<Time>, cutoff: int) returns (n: nat)
    modifies a
    ensures n <= a.Length && a[..n] == After(old(a[..]), cutoff)
  {
    n := 0;
    ghost var was := a[..];
    for i := 0 to a.Length
      invariant n <= i && a[..n] == After(was[..i], cutoff)
      invariant forall j | i <= j < a.Length :: a[j] == was[j]
    {
      AfterLast(was[..i], was[i], cutoff);
      assert was[..i + 1] == was[..i] + [was[i]];
      if a[i] > cutoff {
        a[n] := a[i];
        n := n + 1;
        assert a[..n] == After(was[..i], cutoff) + [was[i]];
      }
    }
    assert was[..a.Length] == was;
  }

  class Table {
    const cfg: Config
    var sources: map<string, Source>
    var nextPrune: Time

    constructor (cfg: Config, now: Time)
      ensures this.cfg == cfg && State() == Limiter(map[], now)
    {
      this.cfg, sources, nextPrune := cfg, map[], now;
    }

    ghost function State(): Limiter
      reads this
    {
      Limiter(sources, nextPrune)
    }

    method Prune(now: Time)
      modifies this
      ensures State() == Pruned(cfg, old(State()), now)
    {
      if now < nextPrune {
        return;
      }
      nextPrune := now + cfg.pruneEvery;
      var todo := sources.Keys;
      while todo != {}
        invariant nextPrune == now + cfg.pruneEvery && todo <= sources.Keys
        invariant sources == map a | a in old(sources) && (a in todo || !Stale(cfg, old(sources)[a], now)) :: old(sources)[a]
        decreases todo
      {
        var a :| a in todo;
        todo := todo - {a};
        if Stale(cfg, sources[a], now) {
          sources := sources - {a};
        }
      }
      assert sources == Pruned(cfg, old(State()), now).sources;
    }

    method Blocked(addr: string, now: Time) returns (blocked: bool)
      modifies this
      ensures (State(), blocked) == Step(cfg, old(State()), Asked(addr, now))
    {
      if !cfg.enabled {
        return false;
      }
      Prune(now);
      if addr !in sources {
        return false;
      }
      blocked := now < sources[addr].blockedTo;
      sources := sources[addr := sources[addr].(lastSeen := now)];
    }

    method NoteFailure(addr: string, now: Time)
      modifies this
      ensures State() == Step(cfg, old(State()), Failed(addr, now)).0
    {
      if !cfg.enabled {
        return;
      }
      var s := Get(Limiter(sources, nextPrune), addr);
      var slice := new Time[|s.failures|](i requires 0 <= i < |s.failures| => s.failures[i]);
      assert slice[..] == s.failures;
      var n := KeepRecent(slice, now - cfg.window);
      var kept := slice[..n];
      s := s.(failures := kept + [now], lastSeen := now);
      if cfg.threshold > 0 && |s.failures| >= cfg.threshold {
        s := s.(blockedTo := now + cfg.blockFor, failures := []);
      }
      sources := sources[addr := s];
    }

    method NoteSuccess(addr: string, now: Time)
      modifies this
      ensures State() == Step(cfg, old(State()), Succeeded(addr, now)).0
    {
      if cfg.enabled && addr in sources {
        sources := sources[addr := sources[addr].(failures := [], lastSeen := now)];
      }
    }
  }
}
