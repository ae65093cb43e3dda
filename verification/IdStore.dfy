/** The identifier table as the store changes it, row by row (internal/store/idrange.go). */
module IdStore {
  import opened IdRange

  /** Checks a range, both RID intervals in turn. */
  method ValidateRange(r: Range) returns (ok: bool)
    ensures ok == r.Valid()
  {
    if r.baseId <= 0 || r.size <= 0 || r.baseRid < 1000 || r.secondaryBaseRid < 1000 {
      return false;
    }
    if r.baseId + r.size > 0xffff_ffff {
      return false;
    }
    var bases := [r.baseRid, r.secondaryBaseRid];
    for i := 0 to |bases|
      invariant forall k | 0 <= k < i :: bases[k] + r.size <= 0xffff_ffff
    {
      if bases[i] + r.size > 0xffff_ffff {
        return false;
      }
    }
    assert bases[0] == r.baseRid && bases[1] == r.secondaryBaseRid;
    var lo, hi := r.baseRid, r.secondaryBaseRid;
    if lo > hi {
      lo, hi := hi, lo;
    }
    ok := lo + r.size <= hi;
  }

  /** The table without one owner's entry, and with everybody else's. */
  predicate Freed<K>(before: map<K, Owner>, after: map<K, Owner>, owner: Owner) {
    && (forall rid <- after :: after[rid] != owner && rid in before && after[rid] == before[rid])
    && (forall rid <- before :: before[rid] != owner ==> rid in after)
  }

  lemma ReleasedIs<K>(before: map<K, Owner>, after: map<K, Owner>, owner: Owner)
    requires Freed(before, after, owner)
    ensures after == Release(before, owner)
  {
  }

  class Store {
    const range: Range
    var users: map<int, int>
    var groups: map<int, int>
    var sids: Sids

    constructor (range: Range, users: map<int, int>, groups: map<int, int>)
      requires range.Valid() && UniqueIds(users) && UniqueIds(groups)
      ensures this.range == range && State() == Tables(users, groups, map[]) && Valid()
    {
      this.range, this.users, this.groups, this.sids := range, users, groups, map[];
    }

    ghost function State(): Tables
      reads this
    {
      Tables(users, groups, sids)
    }

    ghost predicate Valid()
      reads this
    {
      range.Valid() && Inv(range, State())
    }

    function Rows(kind: Kind): map<int, int>
      reads this
    {
      if kind == User then users else groups
    }

    /** Tries the primary RID, then the secondary one. */
    method AllocateRid(owner: Owner, posix: int) returns (ok: bool)
      modifies this`sids
      ensures (sids, ok) == Allocate(range, old(sids), owner, posix)
    {
      if !range.Contains(posix) {
        return true;
      }
      var rids := [range.Primary(posix), range.Secondary(posix)];
      for i := 0 to 2
        invariant sids == old(sids)
        invariant i > 0 ==> !Insert(sids, rids[0], owner).1
        invariant i > 1 ==> !Insert(sids, rids[1], owner).1
      {
        if rids[i] !in sids && !HasRid(sids, owner) {
          sids := sids[rids[i] := owner];
          return true;
        }
      }
      ok := false;
    }

    /** The owner is left without a RID, and everybody else with the one they had. */
    method ReleaseRid(owner: Owner)
      modifies this`sids
      ensures Freed(old(sids), sids, owner)
    {
      sids := map rid | rid in sids && sids[rid] != owner :: sids[rid];
    }

    method SetRow(kind: Kind, id: int, posix: int)
      modifies this`users, this`groups
      ensures State() == old(State()).WithRows(kind, old(State()).Rows(kind)[id := posix])
    {
      if kind == User {
        users := users[id := posix];
      } else {
        groups := groups[id := posix];
      }
    }

    /** Inserts a user or group and gives it its RID, in one transaction. */
    method CreateObject(kind: Kind, id: int, posix: int) returns (ok: bool)
      requires Valid()
      modifies this
      ensures Valid()
      ensures (State(), ok) == Apply(range, old(State()), Create(kind, id, posix))
    {
      ApplyKeepsInv(range, State(), Create(kind, id, posix));
      if posix <= 0 || id in Rows(kind) || TakenByOther(Rows(kind), id, posix) {
        return false;
      }
      SetRow(kind, id, posix);
      ok := AllocateRid(Owner(kind, id), posix);
    }

    /** Gives an object another POSIX id; a changed id moves it to another RID. */
    method RenumberObject(kind: Kind, id: int, posix: int) returns (ok: bool)
      requires Valid()
      modifies this
      ensures Valid()
      ensures (State(), ok) == Apply(range, old(State()), Renumber(kind, id, posix))
    {
      ApplyKeepsInv(range, State(), Renumber(kind, id, posix));
      if id !in Rows(kind) || TakenByOther(Rows(kind), id, posix) {
        return false;
      }
      var before := Rows(kind)[id];
      if before == posix {
        return true;
      }
      SetRow(kind, id, posix);
      ReleaseRid(Owner(kind, id));
      ReleasedIs(old(sids), sids, Owner(kind, id));
      ok := AllocateRid(Owner(kind, id), posix);
    }

    method DeleteObject(kind: Kind, id: int, permitted: bool) returns (ok: bool)
      requires Valid()
      modifies this
      ensures Valid()
      ensures (State(), ok) == Apply(range, old(State()), Delete(kind, id, permitted))
    {
      ApplyKeepsInv(range, State(), Delete(kind, id, permitted));
      if id !in Rows(kind) || !permitted {
        return false;
      }
      ReleaseRid(Owner(kind, id));
      ReleasedIs(old(sids), sids, Owner(kind, id));
      if kind == User {
        users := users - {id};
      } else {
        groups := groups - {id};
      }
      ok := true;
    }

    /** Allocates to every row of one kind that has no RID, in whatever order the query returns them. */
    method BackfillKind(kind: Kind) returns (ghost order: seq<int>)
      requires Valid()
      modifies this`sids
      ensures Valid() && State() == FillAll(range, old(State()), kind, order)
      ensures Complete(range, State(), kind)
      ensures forall rid <- old(sids) :: rid in sids && sids[rid] == old(sids)[rid]
    {
      order := [];
      var todo := set id | id in Rows(kind) && !HasRid(sids, Owner(kind, id));
      ghost var pending := todo;
      while todo != {}
        invariant todo <= pending && forall id <- pending :: id in todo || id in order
        invariant State() == FillAll(range, old(State()), kind, order)
        decreases todo
      {
        var id :| id in todo;
        todo := todo - {id};
        FillAllKeepsInv(range, old(State()), kind, order);
        var _ := AllocateRid(Owner(kind, id), Rows(kind)[id]);
        assert (order + [id])[..|order|] == order;
        order := order + [id];
      }
      FillAllKeepsInv(range, old(State()), kind, order);
      forall id <- Rows(kind) | range.Contains(Rows(kind)[id]) ensures HasRid(sids, Owner(kind, id)) {
        if HasRid(old(sids), Owner(kind, id)) { StillHolds(old(sids), sids, Owner(kind, id)); }
      }
    }

    /** Users first, then groups: afterwards every object in the range has its RID. */
    method BackfillAll()
      requires Valid()
      modifies this`sids
      ensures Valid() && Complete(range, State(), User) && Complete(range, State(), Group)
      ensures forall rid <- old(sids) :: rid in sids && sids[rid] == old(sids)[rid]
    {
      ghost var _ := BackfillKind(User);
      label mid:
      ghost var _ := BackfillKind(Group);
      forall id <- users | range.Contains(users[id]) ensures HasRid(sids, Owner(User, id)) {
        StillHolds(old@mid(sids), sids, Owner(User, id));
      }
    }
  }
}
