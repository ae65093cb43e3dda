/** Nested groups: who belongs to a group, and which groups someone belongs to
    (internal/store/groups.go, internal/store/users.go). */
module Groups {

  datatype Gid = Gid(number: int)

  /** Edges from a group's gid to a gid it includes. */
  type Edges = seq<(Gid, Gid)>

  /** Group rows with their gids, and inclusion rows naming a group row and the gid it includes. Either
      side of an inclusion may dangle, and inclusions may form cycles. */
  datatype Tables = Tables(groups: map<int, Gid>, includes: seq<(int, Gid)>) {

    /** The first `n` inclusion rows joined with the groups they belong to. */
    function Joined(n: nat): Edges
      requires n <= |includes|
    {
      if n == 0 then []
      else if includes[n - 1].0 in groups then Joined(n - 1) + [(groups[includes[n - 1].0], includes[n - 1].1)]
      else Joined(n - 1)
    }

    function Edges(): Edges {
      Joined(|includes|)
    }
  }

  /** One gid includes another exactly when some group row with that gid has an inclusion row for it. */
  lemma {:induction false} JoinedRows(t: Tables, n: nat, a: Gid, b: Gid)
    requires n <= |t.includes|
    ensures (a, b) in t.Joined(n) <==>
            exists i | 0 <= i < n :: t.includes[i].0 in t.groups && t.groups[t.includes[i].0] == a && t.includes[i].1 == b
  {
    if n > 0 { JoinedRows(t, n - 1, a, b); }
  }

  function Reversed(e: Edges): (r: Edges)
    ensures |r| == |e| && forall a, b :: (a, b) in r <==> (b, a) in e
  {
    if e == [] then [] else [(e[0].1, e[0].0)] + Reversed(e[1..])
  }

  /** A walk along edges. */
  ghost predicate IsPath(e: Edges, p: seq<Gid>) {
    p != [] && forall i | 0 <= i < |p| - 1 :: (p[i], p[i + 1]) in e
  }

  /** The reflexive-transitive closure of the edges. */
  ghost predicate Reaches(e: Edges, a: Gid, b: Gid) {
    exists p: seq<Gid> :: IsPath(e, p) && p[0] == a && p[|p| - 1] == b
  }

  ghost predicate ReachesFrom(e: Edges, seeds: seq<Gid>, b: Gid) {
    exists a <- seeds :: Reaches(e, a, b)
  }

  lemma ReachesSelf(e: Edges, a: Gid)
    ensures Reaches(e, a, a)
  {
    assert IsPath(e, [a]);
  }

  lemma ReachesStep(e: Edges, a: Gid, b: Gid, c: Gid)
    requires Reaches(e, a, b) && (b, c) in e
    ensures Reaches(e, a, c)
  {
    var p: seq<Gid> :| IsPath(e, p) && p[0] == a && p[|p| - 1] == b;
    var q := p + [c];
    forall i | 0 <= i < |q| - 1 ensures (q[i], q[i + 1]) in e {
      if i < |p| - 1 { assert (p[i], p[i + 1]) in e; }
    }
    assert IsPath(e, q);
  }

  lemma {:induction false} ClosedUnderPath(e: Edges, s: set<Gid>, p: seq<Gid>)
    requires IsPath(e, p) && p[0] in s
    requires forall a, b | a in s && (a, b) in e :: b in s
    ensures p[|p| - 1] in s
    decreases |p|
  {
    if |p| > 1 {
      assert (p[0], p[0 + 1]) in e;
      var q := p[1..];
      forall i | 0 <= i < |q| - 1 ensures (q[i], q[i + 1]) in e { assert (p[i + 1], p[i + 1 + 1]) in e; }
      ClosedUnderPath(e, s, q);
    }
  }

  /** A set with the seeds in it, closed under the edges, holds everything they reach. */
  lemma ClosedHoldsAll(e: Edges, s: set<Gid>, seeds: seq<Gid>, b: Gid)
    requires (forall a <- seeds :: a in s) && (forall a, b | a in s && (a, b) in e :: b in s)
    requires ReachesFrom(e, seeds, b)
    ensures b in s
  {
    var a :| a in seeds && Reaches(e, a, b);
    var p: seq<Gid> :| IsPath(e, p) && p[0] == a && p[|p| - 1] == b;
    ClosedUnderPath(e, s, p);
  }

  /** A step from the closure stays in it, and ends in one of the edges' targets. */
  lemma NeighbourReached(e: Edges, seeds: seq<Gid>, cur: Gid, g: Gid)
    requires ReachesFrom(e, seeds, cur) && (cur, g) in e
    ensures ReachesFrom(e, seeds, g) && g in Targets(e)
  {
    var a :| a in seeds && Reaches(e, a, cur);
    ReachesStep(e, a, cur, g);
  }

  function Targets(e: Edges): (s: set<Gid>)
    ensures forall a, b | (a, b) in e :: b in s
  {
    if e == [] then {} else {e[0].1} + Targets(e[1..])
  }

  function Flip(p: seq<Gid>): seq<Gid> {
    seq(|p|, i requires 0 <= i < |p| => p[|p| - 1 - i])
  }

  lemma ReversedReaches(e: Edges, f: Edges, a: Gid, b: Gid)
    requires forall x, y :: (x, y) in f <==> (y, x) in e
    requires Reaches(e, a, b)
    ensures Reaches(f, b, a)
  {
    var p: seq<Gid> :| IsPath(e, p) && p[0] == a && p[|p| - 1] == b;
    var q := Flip(p);
    forall i | 0 <= i < |q| - 1 ensures (q[i], q[i + 1]) in f {
      var j := |p| - 2 - i;
      assert (p[j], p[j + 1]) in e;
    }
    assert IsPath(f, q);
  }

  /** Reachability along the reversed edges is the converse relation. */
  lemma ReachesConverse(e: Edges, a: Gid, b: Gid)
    ensures Reaches(Reversed(e), b, a) <==> Reaches(e, a, b)
  {
    if Reaches(e, a, b) { ReversedReaches(e, Reversed(e), a, b); }
    if Reaches(Reversed(e), b, a) { ReversedReaches(Reversed(e), e, b, a); }
  }

  // ----- The worklist -----

  /** The gids one edge away: the rows one query returns. */
  method Neighbours(e: Edges, cur: Gid) returns (next: seq<Gid>)
    ensures forall g :: g in next <==> (cur, g) in e
  {
    next := [];
    for i := 0 to |e|
      invariant forall g :: g in next <==> (cur, g) in e[..i]
    {
      assert e[..i + 1] == e[..i] + [e[i]];
      if e[i].0 == cur {
        next := next + [e[i].1];
      }
    }
    assert e[..|e|] == e;
  }

  /** Adds the gids not seen before to the visited set and the queue. */
  method Visit(next: seq<Gid>, seen0: set<Gid>, queue0: seq<Gid>) returns (seen: set<Gid>, queue: seq<Gid>)
    ensures seen == seen0 + (set g | g in next)
    ensures forall g :: g in queue <==> g in queue0 || (g in next && g !in seen0)
    ensures queue == queue0 || seen0 < seen
    ensures |queue| >= |queue0|
  {
    seen, queue := seen0, queue0;
    for i := 0 to |next|
      invariant seen == seen0 + (set g | g in next[..i])
      invariant forall g :: g in queue <==> g in queue0 || (g in next[..i] && g !in seen0)
      invariant queue == queue0 || seen0 < seen
      invariant |queue| >= |queue0|
    {
      assert next[..i + 1] == next[..i] + [next[i]];
      if next[i] !in seen {
        seen := seen + {next[i]};
        queue := queue + [next[i]];
      }
    }
    assert next[..|next|] == next;
  }

  /** Every gid one edge from `a` has been seen. */
  predicate Expanded(e: Edges, seen: set<Gid>, a: Gid) {
    forall i | 0 <= i < |e| && e[i].0 == a :: e[i].1 in seen
  }

  /** What holds between two rounds: everything seen is reachable, and everything seen that is no longer
      queued has had its neighbours looked at. */
  ghost predicate Progress(e: Edges, seeds: seq<Gid>, seen: set<Gid>, queue: seq<Gid>) {
    && (forall g <- seeds :: g in seen)
    && (forall g <- queue :: g in seen)
    && (forall g <- seen :: ReachesFrom(e, seeds, g))
    && (forall g <- seen :: g in queue || Expanded(e, seen, g))
  }

  lemma RoundKeepsProgress(e: Edges, seeds: seq<Gid>, seen: set<Gid>, queue: seq<Gid>,
                           next: seq<Gid>, seen': set<Gid>, queue': seq<Gid>)
    requires queue != [] && Progress(e, seeds, seen, queue)
    requires forall g :: g in next <==> (queue[0], g) in e
    requires seen' == seen + (set g | g in next)
    requires forall g :: g in queue' <==> g in queue[1..] || (g in next && g !in seen)
    ensures Progress(e, seeds, seen', queue')
    ensures seen' <= seen + Targets(e)
  {
    var cur := queue[0];
    forall g <- next ensures ReachesFrom(e, seeds, g) && g in Targets(e) { NeighbourReached(e, seeds, cur, g); }
    forall g <- seen' | g !in queue' ensures Expanded(e, seen', g) {
      if g == cur {
        forall i | 0 <= i < |e| && e[i].0 == g ensures e[i].1 in seen' { assert e[i] == (cur, e[i].1); }
      } else {
        assert g in seen;
        assert g !in queue;
      }
    }
  }

  lemma ProgressStarts(e: Edges, seeds: seq<Gid>, seen: set<Gid>, queue: seq<Gid>)
    requires seen == (set g | g in seeds) && forall g :: g in queue <==> g in seeds
    ensures Progress(e, seeds, seen, queue)
  {
    forall g <- seeds ensures ReachesFrom(e, seeds, g) { ReachesSelf(e, g); }
  }

  lemma ProgressEnds(e: Edges, seeds: seq<Gid>, seen: set<Gid>)
    requires Progress(e, seeds, seen, [])
    ensures forall g :: g in seen <==> ReachesFrom(e, seeds, g)
  {
    forall a, b | a in seen && (a, b) in e ensures b in seen { assert Expanded(e, seen, a); }
    forall g | ReachesFrom(e, seeds, g) ensures g in seen { ClosedHoldsAll(e, seen, seeds, g); }
  }

  /** Everything reachable from the seeds, found breadth first. Repeated edges and cycles are passed
      over, and so it ends on every graph. */
  method Close(e: Edges, seeds: seq<Gid>) returns (seen: set<Gid>)
    ensures forall g :: g in seen <==> ReachesFrom(e, seeds, g)
  {
    var queue: seq<Gid>;
    seen, queue := Visit(seeds, {}, []);
    ghost var all := seen + Targets(e);
    ProgressStarts(e, seeds, seen, queue);
    while queue != []
      invariant seen <= all && Progress(e, seeds, seen, queue)
      decreases all - seen, |queue|
    {
      seen, queue := Round(e, seeds, seen, queue);
    }
    ProgressEnds(e, seeds, seen);
  }

  /** One round: takes a gid off the queue and visits its neighbours. */
  method Round(e: Edges, ghost seeds: seq<Gid>, seen0: set<Gid>, queue0: seq<Gid>) returns (seen: set<Gid>, queue: seq<Gid>)
    requires queue0 != [] && Progress(e, seeds, seen0, queue0)
    ensures Progress(e, seeds, seen, queue) && seen <= seen0 + Targets(e)
    ensures seen0 < seen || (seen == seen0 && |queue| < |queue0|)
  {
    var next := Neighbours(e, queue0[0]);
    seen, queue := Visit(next, seen0, queue0[1..]);
    RoundKeepsProgress(e, seeds, seen0, queue0, next, seen, queue);
  }

  // ----- Members and memberships -----

  datatype Account = Account(name: string, primary: Gid, others: seq<Gid>) {
    function Direct(): seq<Gid> {
      [primary] + others
    }
  }

  /** `u` belongs to `gid`: one of the groups it is in directly is included in `gid`, however deeply. */
  ghost predicate Belongs(t: Tables, u: Account, gid: Gid) {
    Reaches(t.Edges(), gid, u.primary) || exists i | 0 <= i < |u.others| :: Reaches(t.Edges(), gid, u.others[i])
  }

  /** The two directions agree on every graph: the groups found upwards from an account are exactly those
      that, expanded downwards, contain one of its direct groups. */
  lemma MembershipAgrees(t: Tables, u: Account, gid: Gid)
    ensures ReachesFrom(Reversed(t.Edges()), u.Direct(), gid) <==> Belongs(t, u, gid)
  {
    forall d <- u.Direct() ensures Reaches(Reversed(t.Edges()), d, gid) <==> Reaches(t.Edges(), gid, d) {
      ReachesConverse(t.Edges(), gid, d);
    }
    assert u.primary in u.Direct() && forall i | 0 <= i < |u.others| :: u.others[i] in u.Direct();
  }

  method ExpandGroup(t: Tables, gid: Gid) returns (gids: set<Gid>)
    ensures forall g :: g in gids <==> Reaches(t.Edges(), gid, g)
  {
    gids := Close(t.Edges(), [gid]);
    forall g ensures ReachesFrom(t.Edges(), [gid], g) <==> Reaches(t.Edges(), gid, g) {
      assert [gid][0] in [gid];
    }
  }

  /** Every group an account is in, directly or through inclusion. */
  method UserGids(t: Tables, u: Account) returns (gids: set<Gid>)
    ensures forall g :: g in gids <==> Belongs(t, u, g)
  {
    gids := Close(Reversed(t.Edges()), u.Direct());
    forall g ensures ReachesFrom(Reversed(t.Edges()), u.Direct(), g) <==> Belongs(t, u, g) {
      MembershipAgrees(t, u, g);
    }
  }

  /** The accounts in a group, directly or through inclusion. */
  method GroupMembers(t: Tables, accounts: seq<Account>, gid: Gid) returns (members: set<string>)
    ensures forall name :: name in members <==> exists i | 0 <= i < |accounts| :: accounts[i].name == name && Belongs(t, accounts[i], gid)
  {
    var gids := ExpandGroup(t, gid);
    members := {};
    for i := 0 to |accounts|
      invariant forall name :: name in members <==>
                  exists k | 0 <= k < i :: accounts[k].name == name && Belongs(t, accounts[k], gid)
    {
      var u := accounts[i];
      assert u.Direct()[0] == u.primary && forall g <- u.others :: g in u.Direct();
      if u.primary in gids || exists g :: g in u.others && g in gids {
        members := members + {u.name};
      }
    }
  }
}
