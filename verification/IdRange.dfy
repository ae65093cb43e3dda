/** Relative identifiers for users and groups (internal/store/idrange.go, and its callers in
    internal/store/users.go and internal/store/groups.go). */
module IdRange {

  datatype Range = Range(baseId: int, size: int, baseRid: int, secondaryBaseRid: int) {

    /** Inside the 32 bit space, clear of the well-known RIDs, and with intervals that do not meet. */
    predicate Valid() {
      && baseId > 0 && size > 0 && baseRid >= 1000 && secondaryBaseRid >= 1000
      && baseId + size <= 0xffff_ffff && baseRid + size <= 0xffff_ffff && secondaryBaseRid + size <= 0xffff_ffff
      && (baseRid + size <= secondaryBaseRid || secondaryBaseRid + size <= baseRid)
    }

    predicate Contains(id: int) {
      baseId <= id < baseId + size
    }

    function Primary(id: int): int {
      baseRid + (id - baseId)
    }

    function Secondary(id: int): int {
      secondaryBaseRid + (id - baseId)
    }

    predicate Maps(id: int, rid: int) {
      rid == Primary(id) || rid == Secondary(id)
    }
  }

  datatype Kind = User | Group
  datatype Owner = Owner(kind: Kind, id: int)

  /** The identifier table: each RID and the object that holds it. */
  type Sids = map<int, Owner>

  /** User rows and group rows with their POSIX ids, and the identifier table. */
  datatype Tables = Tables(users: map<int, int>, groups: map<int, int>, sids: Sids) {

    function Rows(kind: Kind): map<int, int> {
      if kind == User then users else groups
    }

    function WithRows(kind: Kind, rows: map<int, int>): Tables {
      if kind == User then this.(users := rows) else this.(groups := rows)
    }
  }

  // ----- Allocation -----

  predicate HasRid(sids: Sids, owner: Owner) {
    exists rid <- sids :: sids[rid] == owner
  }

  /** The insert that does nothing on a conflict: the RID is taken, or the owner already has one. */
  function Insert(sids: Sids, rid: int, owner: Owner): (Sids, bool) {
    if rid in sids || HasRid(sids, owner) then (sids, false) else (sids[rid := owner], true)
  }

  /** The primary RID if it is free, else the secondary one; none for an id outside the range. */
  function Allocate(r: Range, sids: Sids, owner: Owner, posix: int): (Sids, bool) {
    if !r.Contains(posix) then (sids, true)
    else
      var (once, done) := Insert(sids, r.Primary(posix), owner);
      if done then (once, true) else Insert(sids, r.Secondary(posix), owner)
  }

  function Release<K>(sids: map<K, Owner>, owner: Owner): map<K, Owner> {
    map rid | rid in sids && sids[rid] != owner :: sids[rid]
  }

  // ----- Operations -----

  datatype Op =
    | Create(kind: Kind, id: int, posix: int)
    | Renumber(kind: Kind, id: int, posix: int)
    | Delete(kind: Kind, id: int, permitted: bool)
    | Backfill(userRows: seq<int>, groupRows: seq<int>)

  predicate TakenByOther(rows: map<int, int>, id: int, posix: int) {
    exists other <- rows :: other != id && rows[other] == posix
  }

  /** Each operation is one transaction: it applies as a whole, or nothing changes and it fails. */
  function Apply(r: Range, t: Tables, op: Op): (Tables, bool) {
    match op
    case Create(kind, id, posix) =>
      if posix <= 0 || id in t.Rows(kind) || TakenByOther(t.Rows(kind), id, posix) then (t, false)
      else
        var (sids, ok) := Allocate(r, t.sids, Owner(kind, id), posix);
        if ok then (t.WithRows(kind, t.Rows(kind)[id := posix]).(sids := sids), true) else (t, false)
    case Renumber(kind, id, posix) =>
      if id !in t.Rows(kind) || TakenByOther(t.Rows(kind), id, posix) then (t, false)
      else if t.Rows(kind)[id] == posix then (t, true)
      else
        var (sids, ok) := Allocate(r, Release(t.sids, Owner(kind, id)), Owner(kind, id), posix);
        if ok then (t.WithRows(kind, t.Rows(kind)[id := posix]).(sids := sids), true) else (t, false)
    case Delete(kind, id, permitted) =>
      if id !in t.Rows(kind) || !permitted then (t, false)
      else (t.WithRows(kind, t.Rows(kind) - {id}).(sids := Release(t.sids, Owner(kind, id))), true)
    case Backfill(userRows, groupRows) =>
      (FillAll(r, FillAll(r, t, User, userRows), Group, groupRows), true)
  }

  /** Allocates to one kind's rows in the order given; a row that cannot be given one is passed over. */
  function FillAll(r: Range, t: Tables, kind: Kind, ids: seq<int>): Tables {
    if ids == [] then t
    else
      var before := FillAll(r, t, kind, ids[..|ids| - 1]);
      Fill(r, before, kind, ids[|ids| - 1])
  }

  function Fill(r: Range, t: Tables, kind: Kind, id: int): Tables {
    if id !in t.Rows(kind) then t
    else t.(sids := Allocate(r, t.sids, Owner(kind, id), t.Rows(kind)[id]).0)
  }

  // ----- What every run keeps -----

  /** POSIX ids are unique within a kind, which the unique indexes on them guarantee. */
  predicate UniqueIds(rows: map<int, int>) {
    forall a, b | a in rows && b in rows && rows[a] == rows[b] :: a == b
  }

  /** RID `rid` belongs to a live object and is one of the two its current id maps to. */
  predicate Rightful(r: Range, t: Tables, rid: int)
    requires rid in t.sids
  {
    var o := t.sids[rid];
    o.id in t.Rows(o.kind) && r.Contains(t.Rows(o.kind)[o.id]) && r.Maps(t.Rows(o.kind)[o.id], rid)
  }

  /** No object holds two RIDs. That no RID has two holders is in the table's key. */
  predicate OneEach(sids: Sids) {
    forall a, b | a in sids && b in sids && sids[a] == sids[b] :: a == b
  }

  predicate Inv(r: Range, t: Tables) {
    && UniqueIds(t.users) && UniqueIds(t.groups) && OneEach(t.sids)
    && forall rid <- t.sids :: Rightful(r, t, rid)
  }

  /** The part of the table that is not about `o`. */
  function Others(sids: Sids, o: Owner): Sids {
    map rid | rid in sids && sids[rid] != o :: sids[rid]
  }

  lemma OthersIsAll(sids: Sids, o: Owner, rid: int)
    requires !HasRid(sids, o) && rid !in sids
    ensures Others(sids, o) == sids && Others(sids[rid := o], o) == sids
  {
    assert forall k | k in sids :: sids[k] != o;
  }

  /** Every object with an id in the range has its RID. */
  predicate Complete(r: Range, t: Tables, kind: Kind) {
    forall id <- t.Rows(kind) :: r.Contains(t.Rows(kind)[id]) ==> HasRid(t.sids, Owner(kind, id))
  }

  /** Every RID is in the space left to ordinary objects, and determines the id it came from. */
  lemma RidFacts(r: Range, a: int, b: int, rid: int)
    requires r.Valid() && r.Contains(a) && r.Contains(b) && r.Maps(a, rid) && r.Maps(b, rid)
    ensures a == b && 1000 <= rid < 0x1_0000_0000
  {
  }

  /** Whoever holds a RID that `posix` maps to has that id and, `o` aside, is of the other kind. */
  lemma HolderOf(r: Range, t: Tables, o: Owner, posix: int, rid: int)
    requires r.Valid() && Inv(r, t) && r.Contains(posix) && r.Maps(posix, rid)
    requires rid in t.sids && t.sids[rid] != o
    requires forall id <- t.Rows(o.kind) :: t.Rows(o.kind)[id] == posix ==> id == o.id
    ensures var h := t.sids[rid]; h.kind != o.kind && h.id in t.Rows(h.kind) && t.Rows(h.kind)[h.id] == posix
  {
    var h := t.sids[rid];
    assert Rightful(r, t, rid);
    RidFacts(r, t.Rows(h.kind)[h.id], posix, rid);
  }

  /** An object of the other kind with this id holds its primary RID. */
  predicate PrimaryTaken(r: Range, t: Tables, kind: Kind, posix: int) {
    var rid := r.baseRid + (posix - r.baseId);
    rid in t.sids && t.sids[rid].kind != kind && t.sids[rid].id in t.Rows(t.sids[rid].kind)
    && t.Rows(t.sids[rid].kind)[t.sids[rid].id] == posix
  }

  /** With `o` out of the way, at most one of the two RIDs an id maps to is taken. */
  lemma OneIsFree(r: Range, t: Tables, o: Owner, posix: int)
    requires r.Valid() && Inv(r, t) && !HasRid(t.sids, o) && r.Contains(posix)
    requires forall id <- t.Rows(o.kind) :: t.Rows(o.kind)[id] == posix ==> id == o.id
    ensures r.Primary(posix) !in t.sids || r.Secondary(posix) !in t.sids
  {
    var p, s := r.Primary(posix), r.Secondary(posix);
    if p in t.sids && s in t.sids {
      HolderOf(r, t, o, posix, p);
      HolderOf(r, t, o, posix, s);
    }
  }

  /** The RID an id is given: its place in the primary interval, or in the secondary one when somebody holds
      the first. */
  function Given(r: Range, sids: Sids, posix: int): int {
    if r.baseRid + (posix - r.baseId) in sids then r.secondaryBaseRid + (posix - r.baseId) else r.baseRid + (posix - r.baseId)
  }

  /** An object with an id in the range and no RID always gets one, the primary unless an object of the other
      kind with the same id holds it, and nobody else's moves. */
  lemma AllocateSucceeds(r: Range, t: Tables, o: Owner, posix: int)
    requires r.Valid() && Inv(r, t) && !HasRid(t.sids, o) && r.Contains(posix)
    requires forall id <- t.Rows(o.kind) :: t.Rows(o.kind)[id] == posix ==> id == o.id
    ensures var (sids, ok) := Allocate(r, t.sids, o, posix);
            && ok && Others(sids, o) == t.sids && HasRid(sids, o) && OneEach(sids)
            && (forall rid <- sids :: sids[rid] == o ==> r.Maps(posix, rid))
            && Given(r, t.sids, posix) !in t.sids && sids == t.sids[Given(r, t.sids, posix) := o]
    ensures PrimaryTaken(r, t, o.kind, posix) <==> r.baseRid + (posix - r.baseId) in t.sids
  {
    OneIsFree(r, t, o, posix);
    if r.Primary(posix) in t.sids { HolderOf(r, t, o, posix, r.Primary(posix)); }
    var rid := if r.Primary(posix) in t.sids then r.Secondary(posix) else r.Primary(posix);
    var sids := t.sids[rid := o];
    assert Allocate(r, t.sids, o, posix) == (sids, true);
    assert sids[rid] == o;
    OthersIsAll(t.sids, o, rid);
  }

  lemma ReleaseKeepsOthers(r: Range, t: Tables, o: Owner)
    requires Inv(r, t)
    ensures !HasRid(Release(t.sids, o), o) && Inv(r, t.(sids := Release(t.sids, o)))
    ensures Release(t.sids, o) == Others(t.sids, o)
  {
    var u := t.(sids := Release(t.sids, o));
    forall rid <- u.sids ensures Rightful(r, u, rid) { assert Rightful(r, t, rid); }
  }

  /** A row takes a new id: its own RID, if it has one, maps from it, and every other row stands. */
  lemma RowChangeKeepsInv(r: Range, t: Tables, o: Owner, posix: int, sids: Sids)
    requires Inv(r, t) && !HasRid(t.sids, o) && !TakenByOther(t.Rows(o.kind), o.id, posix)
    requires Others(sids, o) == t.sids && OneEach(sids)
    requires forall rid <- sids :: sids[rid] == o ==> r.Contains(posix) && r.Maps(posix, rid)
    ensures Inv(r, t.WithRows(o.kind, t.Rows(o.kind)[o.id := posix]).(sids := sids))
  {
    var u := t.WithRows(o.kind, t.Rows(o.kind)[o.id := posix]).(sids := sids);
    forall rid <- u.sids ensures Rightful(r, u, rid) {
      if sids[rid] != o {
        assert rid in Others(sids, o);
        assert Rightful(r, t, rid);
      }
    }
  }

  lemma OwnerAbsent(r: Range, t: Tables, kind: Kind, id: int)
    requires Inv(r, t) && id !in t.Rows(kind)
    ensures !HasRid(t.sids, Owner(kind, id))
  {
    forall rid <- t.sids ensures t.sids[rid] != Owner(kind, id) { assert Rightful(r, t, rid); }
  }

  /** Allocation from a state in which `o` holds nothing, whether or not its id is in the range. */
  lemma AllocateKeepsInv(r: Range, t: Tables, o: Owner, posix: int)
    requires r.Valid() && Inv(r, t) && !HasRid(t.sids, o) && !TakenByOther(t.Rows(o.kind), o.id, posix)
    ensures var (sids, ok) := Allocate(r, t.sids, o, posix);
            && ok && Others(sids, o) == t.sids
            && Inv(r, t.WithRows(o.kind, t.Rows(o.kind)[o.id := posix]).(sids := sids))
            && (r.Contains(posix) ==> HasRid(sids, o))
  {
    var (sids, ok) := Allocate(r, t.sids, o, posix);
    if r.Contains(posix) {
      AllocateSucceeds(r, t, o, posix);
    } else {
      assert forall k | k in t.sids :: t.sids[k] != o;
      assert Others(t.sids, o) == t.sids;
    }
    RowChangeKeepsInv(r, t, o, posix, sids);
  }

  lemma FillKeepsInv(r: Range, t: Tables, kind: Kind, id: int)
    requires r.Valid() && Inv(r, t)
    ensures var u := Fill(r, t, kind, id);
            && Inv(r, u) && u.users == t.users && u.groups == t.groups
            && Others(u.sids, Owner(kind, id)) == Others(t.sids, Owner(kind, id))
            && t.sids.Keys <= u.sids.Keys && (forall rid <- t.sids :: u.sids[rid] == t.sids[rid])
            && (id in t.Rows(kind) && r.Contains(t.Rows(kind)[id]) ==> HasRid(u.sids, Owner(kind, id)))
  {
    var o := Owner(kind, id);
    if id in t.Rows(kind) && !HasRid(t.sids, o) {
      var posix := t.Rows(kind)[id];
      assert UniqueIds(t.Rows(kind));
      AllocateKeepsInv(r, t, o, posix);
      assert t.Rows(kind)[id := posix] == t.Rows(kind);
      var sids := Allocate(r, t.sids, o, posix).0;
      assert forall rid <- t.sids :: rid in Others(sids, o);
    }
  }

  lemma {:induction false} FillAllKeepsInv(r: Range, t: Tables, kind: Kind, ids: seq<int>)
    requires r.Valid() && Inv(r, t)
    ensures var u := FillAll(r, t, kind, ids);
            && Inv(r, u) && u.users == t.users && u.groups == t.groups
            && t.sids.Keys <= u.sids.Keys && (forall rid <- t.sids :: u.sids[rid] == t.sids[rid])
            && (forall id <- ids :: id in t.Rows(kind) && r.Contains(t.Rows(kind)[id]) ==> HasRid(u.sids, Owner(kind, id)))
    decreases |ids|
  {
    if ids != [] {
      var before := FillAll(r, t, kind, ids[..|ids| - 1]);
      FillAllKeepsInv(r, t, kind, ids[..|ids| - 1]);
      var last := ids[|ids| - 1];
      FillKeepsInv(r, before, kind, last);
      var u := FillAll(r, t, kind, ids);
      forall id <- ids | id in t.Rows(kind) && r.Contains(t.Rows(kind)[id]) ensures HasRid(u.sids, Owner(kind, id)) {
        if id != last {
          assert id in ids[..|ids| - 1];
          StillHolds(before.sids, u.sids, Owner(kind, id));
        }
      }
    }
  }

  lemma StillHolds(a: Sids, b: Sids, o: Owner)
    requires (forall rid <- a :: rid in b && b[rid] == a[rid]) && HasRid(a, o)
    ensures HasRid(b, o)
  {
    var rid :| rid in a && a[rid] == o;
    assert b[rid] == o;
  }

  /** Each operation keeps the invariant. An operation on one object leaves every other object's RID
      where it was, and fails only for the reasons a caller can see: never for want of a RID. */
  lemma ApplyKeepsInv(r: Range, t: Tables, op: Op)
    requires r.Valid() && Inv(r, t)
    ensures Inv(r, Apply(r, t, op).0)
    ensures !op.Backfill? ==>
              Others(Apply(r, t, op).0.sids, Owner(op.kind, op.id)) == Others(t.sids, Owner(op.kind, op.id))
    ensures op.Backfill? ==> forall rid <- t.sids :: rid in Apply(r, t, op).0.sids && Apply(r, t, op).0.sids[rid] == t.sids[rid]
    ensures Apply(r, t, op).1 <==>
            match op
            case Create(kind, id, posix) => posix > 0 && id !in t.Rows(kind) && !TakenByOther(t.Rows(kind), id, posix)
            case Renumber(kind, id, posix) => id in t.Rows(kind) && !TakenByOther(t.Rows(kind), id, posix)
            case Delete(kind, id, permitted) => id in t.Rows(kind) && permitted
            case Backfill(_, _) => true
  {
    match op
    case Create(kind, id, posix) =>
      if id !in t.Rows(kind) && !TakenByOther(t.Rows(kind), id, posix) {
        OwnerAbsent(r, t, kind, id);
        AllocateKeepsInv(r, t, Owner(kind, id), posix);
        assert Others(t.sids, Owner(kind, id)) == t.sids;
      }
    case Renumber(kind, id, posix) =>
      if id in t.Rows(kind) && !TakenByOther(t.Rows(kind), id, posix) {
        var o := Owner(kind, id);
        ReleaseKeepsOthers(r, t, o);
        var freed := t.(sids := Release(t.sids, o));
        AllocateKeepsInv(r, freed, o, posix);
        assert t.WithRows(kind, t.Rows(kind)[id := posix]).(sids := Allocate(r, freed.sids, o, posix).0) ==
               freed.WithRows(kind, t.Rows(kind)[id := posix]).(sids := Allocate(r, freed.sids, o, posix).0);
      }
    case Delete(kind, id, permitted) =>
      if id in t.Rows(kind) && permitted { DeleteKeepsInv(r, t, kind, id); }
    case Backfill(userRows, groupRows) =>
      FillAllKeepsInv(r, t, User, userRows);
      FillAllKeepsInv(r, FillAll(r, t, User, userRows), Group, groupRows);
  }

  lemma DeleteKeepsInv(r: Range, t: Tables, kind: Kind, id: int)
    requires Inv(r, t) && id in t.Rows(kind)
    ensures var u := t.WithRows(kind, t.Rows(kind) - {id}).(sids := Release(t.sids, Owner(kind, id)));
            Inv(r, u) && Others(u.sids, Owner(kind, id)) == Others(t.sids, Owner(kind, id))
  {
    var u := t.WithRows(kind, t.Rows(kind) - {id}).(sids := Release(t.sids, Owner(kind, id)));
    forall rid <- u.sids ensures Rightful(r, u, rid) { assert Rightful(r, t, rid); }
  }

  /** What an operation that succeeds does: the row of its object, nobody else's, and a RID for that object
      exactly when its id is in the range. */
  lemma ApplyDoes(r: Range, t: Tables, op: Op)
    requires r.Valid() && Inv(r, t) && Apply(r, t, op).1 && !op.Backfill?
    ensures var u := Apply(r, t, op).0;
            && (op.kind == User ==> u.groups == t.groups) && (op.kind == Group ==> u.users == t.users)
            && (op.Create? || op.Renumber? ==> u.Rows(op.kind) == t.Rows(op.kind)[op.id := op.posix])
            && (op.Delete? ==> u.Rows(op.kind) == t.Rows(op.kind) - {op.id} && !HasRid(u.sids, Owner(op.kind, op.id)))
            && (op.Create? || (op.Renumber? && t.Rows(op.kind)[op.id] != op.posix) ==>
                  (HasRid(u.sids, Owner(op.kind, op.id)) <==> r.Contains(op.posix)))
  {
    match op
    case Create(kind, id, posix) =>
      OwnerAbsent(r, t, kind, id);
      AllocateKeepsInv(r, t, Owner(kind, id), posix);
    case Renumber(kind, id, posix) =>
      ReleaseKeepsOthers(r, t, Owner(kind, id));
      AllocateKeepsInv(r, t.(sids := Release(t.sids, Owner(kind, id))), Owner(kind, id), posix);
      assert t.Rows(kind)[id] == posix ==> t.Rows(kind)[id := posix] == t.Rows(kind);
    case Delete(kind, id, permitted) =>
      ReleaseKeepsOthers(r, t, Owner(kind, id));
  }

  function Run(r: Range, t: Tables, ops: seq<Op>): Tables {
    if ops == [] then t else Apply(r, Run(r, t, ops[..|ops| - 1]), ops[|ops| - 1]).0
  }

  /** In every run from tables with unique ids and no identifiers yet, no object holds two RIDs, each RID
      held is one its holder's current id maps to, and all of them lie clear of the well-known ones. */
  lemma {:induction false} RunKeepsInv(r: Range, t: Tables, ops: seq<Op>)
    requires r.Valid() && UniqueIds(t.users) && UniqueIds(t.groups) && t.sids == map[]
    ensures Inv(r, Run(r, t, ops))
    ensures forall rid <- Run(r, t, ops).sids :: 1000 <= rid < 0x1_0000_0000
    decreases |ops|
  {
    if ops != [] {
      RunKeepsInv(r, t, ops[..|ops| - 1]);
      ApplyKeepsInv(r, Run(r, t, ops[..|ops| - 1]), ops[|ops| - 1]);
    }
    var u := Run(r, t, ops);
    forall rid <- u.sids ensures 1000 <= rid < 0x1_0000_0000 {
      assert Rightful(r, u, rid);
      var o := u.sids[rid];
      RidFacts(r, u.Rows(o.kind)[o.id], u.Rows(o.kind)[o.id], rid);
    }
  }

  /** A backfill over every row gives each object in the range its RID, in whatever order the rows come. */
  lemma BackfillCompletes(r: Range, t: Tables, userRows: seq<int>, groupRows: seq<int>)
    requires r.Valid() && Inv(r, t)
    requires (forall id <- t.users :: id in userRows) && (forall id <- t.groups :: id in groupRows)
    ensures var u := Apply(r, t, Backfill(userRows, groupRows)).0;
            Complete(r, u, User) && Complete(r, u, Group) && u.users == t.users && u.groups == t.groups
  {
    var mid := FillAll(r, t, User, userRows);
    var u := FillAll(r, mid, Group, groupRows);
    FillAllKeepsInv(r, t, User, userRows);
    FillAllKeepsInv(r, mid, Group, groupRows);
    forall id <- u.users | r.Contains(u.users[id]) ensures HasRid(u.sids, Owner(User, id)) {
      StillHolds(mid.sids, u.sids, Owner(User, id));
    }
  }

  // ----- Who holds a secondary RID -----

  /** The object holds the secondary RID of its id. */
  predicate HoldsSecond(r: Range, t: Tables, o: Owner) {
    && o.id in t.Rows(o.kind) && r.Contains(t.Rows(o.kind)[o.id])
    && var rid := r.secondaryBaseRid + (t.Rows(o.kind)[o.id] - r.baseId);
       rid in t.sids && t.sids[rid] == o
  }

  /** It does, and an object of the other kind with the same id holds the primary. */
  predicate Seconded(r: Range, t: Tables, o: Owner) {
    HoldsSecond(r, t, o) && PrimaryTaken(r, t, o.kind, t.Rows(o.kind)[o.id])
  }

  /** An object that is given a RID and ends up with the secondary one. */
  lemma AllocateSeconds(r: Range, t: Tables, o: Owner, posix: int)
    requires r.Valid() && Inv(r, t) && !HasRid(t.sids, o)
    requires forall id <- t.Rows(o.kind) :: t.Rows(o.kind)[id] == posix ==> id == o.id
    ensures var u := t.WithRows(o.kind, t.Rows(o.kind)[o.id := posix]).(sids := Allocate(r, t.sids, o, posix).0);
            HoldsSecond(r, u, o) ==> Seconded(r, u, o)
  {
    if r.Contains(posix) {
      AllocateSucceeds(r, t, o, posix);
    } else {
      assert forall k | k in t.sids :: t.sids[k] != o;
    }
  }

  /** Nothing about the object or the holder of its primary changed. */
  lemma SecondedStays(r: Range, t: Tables, u: Tables, o: Owner)
    requires Seconded(r, t, o) && u.users == t.users && u.groups == t.groups
    requires forall rid <- t.sids :: rid in u.sids && u.sids[rid] == t.sids[rid]
    ensures Seconded(r, u, o)
  {
  }

  /** What an operation on another object leaves alone. */
  lemma SecondIsLeft(r: Range, t: Tables, u: Tables, o: Owner, other: Owner)
    requires o != other && HoldsSecond(r, u, o) && Others(u.sids, other) == Others(t.sids, other)
    requires o.id in u.Rows(o.kind) ==> o.id in t.Rows(o.kind) && t.Rows(o.kind)[o.id] == u.Rows(o.kind)[o.id]
    ensures HoldsSecond(r, t, o)
  {
    var rid := r.secondaryBaseRid + (u.Rows(o.kind)[o.id] - r.baseId);
    assert rid in Others(u.sids, other);
    assert rid in Others(t.sids, other);
  }

  lemma FillSeconds(r: Range, t: Tables, kind: Kind, id: int, o: Owner)
    requires r.Valid() && Inv(r, t)
    ensures var u := Fill(r, t, kind, id); HoldsSecond(r, u, o) && !HoldsSecond(r, t, o) ==> Seconded(r, u, o)
  {
    var u := Fill(r, t, kind, id);
    FillKeepsInv(r, t, kind, id);
    if HoldsSecond(r, u, o) && !HoldsSecond(r, t, o) {
      if o != Owner(kind, id) {
        SecondIsLeft(r, t, u, o, Owner(kind, id));
      } else {
        AllocateSeconds(r, t, o, t.Rows(kind)[id]);
        assert t.Rows(kind)[id := t.Rows(kind)[id]] == t.Rows(kind);
      }
    }
  }

  lemma {:induction false} FillAllSeconds(r: Range, t: Tables, kind: Kind, ids: seq<int>, o: Owner)
    requires r.Valid() && Inv(r, t)
    ensures var u := FillAll(r, t, kind, ids); HoldsSecond(r, u, o) && !HoldsSecond(r, t, o) ==> Seconded(r, u, o)
    decreases |ids|
  {
    if ids != [] {
      var mid := FillAll(r, t, kind, ids[..|ids| - 1]);
      FillAllSeconds(r, t, kind, ids[..|ids| - 1], o);
      FillAllKeepsInv(r, t, kind, ids[..|ids| - 1]);
      FillKeepsInv(r, mid, kind, ids[|ids| - 1]);
      FillSeconds(r, mid, kind, ids[|ids| - 1], o);
      if Seconded(r, mid, o) { SecondedStays(r, mid, FillAll(r, t, kind, ids), o); }
    }
  }

  lemma CreateSeconds(r: Range, t: Tables, kind: Kind, id: int, posix: int, o: Owner)
    requires r.Valid() && Inv(r, t)
    ensures var u := Apply(r, t, Create(kind, id, posix)).0; HoldsSecond(r, u, o) && !HoldsSecond(r, t, o) ==> Seconded(r, u, o)
  {
    var u := Apply(r, t, Create(kind, id, posix)).0;
    ApplyKeepsInv(r, t, Create(kind, id, posix));
    if HoldsSecond(r, u, o) && !HoldsSecond(r, t, o) {
      if o != Owner(kind, id) {
        SecondIsLeft(r, t, u, o, Owner(kind, id));
      } else {
        OwnerAbsent(r, t, kind, id);
        AllocateSeconds(r, t, o, posix);
      }
    }
  }

  lemma RenumberSeconds(r: Range, t: Tables, kind: Kind, id: int, posix: int, o: Owner)
    requires r.Valid() && Inv(r, t)
    ensures var u := Apply(r, t, Renumber(kind, id, posix)).0; HoldsSecond(r, u, o) && !HoldsSecond(r, t, o) ==> Seconded(r, u, o)
  {
    var u := Apply(r, t, Renumber(kind, id, posix)).0;
    ApplyKeepsInv(r, t, Renumber(kind, id, posix));
    if HoldsSecond(r, u, o) && !HoldsSecond(r, t, o) {
      if o != Owner(kind, id) {
        SecondIsLeft(r, t, u, o, Owner(kind, id));
      } else {
        ReleaseKeepsOthers(r, t, o);
        var freed := t.(sids := Release(t.sids, o));
        AllocateSeconds(r, freed, o, posix);
        assert u == freed.WithRows(kind, freed.Rows(kind)[id := posix]).(sids := Allocate(r, freed.sids, o, posix).0);
      }
    }
  }

  /** An operation leaves an object with the secondary RID of its id, which it did not hold before, only when
      an object of the other kind with the same id holds the primary. */
  lemma ApplySeconds(r: Range, t: Tables, op: Op, o: Owner)
    requires r.Valid() && Inv(r, t)
    ensures var u := Apply(r, t, op).0; HoldsSecond(r, u, o) && !HoldsSecond(r, t, o) ==> Seconded(r, u, o)
  {
    match op
    case Create(kind, id, posix) => CreateSeconds(r, t, kind, id, posix, o);
    case Renumber(kind, id, posix) => RenumberSeconds(r, t, kind, id, posix, o);
    case Delete(kind, id, permitted) =>
      ApplyKeepsInv(r, t, op);
      var u := Apply(r, t, op).0;
      if o != Owner(kind, id) && HoldsSecond(r, u, o) { SecondIsLeft(r, t, u, o, Owner(kind, id)); }
    case Backfill(userRows, groupRows) =>
      var mid := FillAll(r, t, User, userRows);
      FillAllSeconds(r, t, User, userRows, o);
      FillAllKeepsInv(r, t, User, userRows);
      FillAllSeconds(r, mid, Group, groupRows, o);
      FillAllKeepsInv(r, mid, Group, groupRows);
      if Seconded(r, mid, o) { SecondedStays(r, mid, FillAll(r, mid, Group, groupRows), o); }
  }

  /** The k-th operation gave the object its secondary RID, with the primary held by the other kind. */
  predicate SecondedAt(r: Range, t: Tables, ops: seq<Op>, k: nat, o: Owner) {
    k < |ops| && !HoldsSecond(r, Run(r, t, ops[..k]), o) && Seconded(r, Run(r, t, ops[..k + 1]), o)
  }

  /** In every run an object that holds the secondary RID of its id was given it while an object of the other
      kind with the same id held the primary. */
  lemma {:induction false} SecondaryOnlyIfTaken(r: Range, t: Tables, ops: seq<Op>, o: Owner)
    requires r.Valid() && UniqueIds(t.users) && UniqueIds(t.groups) && t.sids == map[]
    ensures HoldsSecond(r, Run(r, t, ops), o) ==> exists k: nat :: SecondedAt(r, t, ops, k, o)
    decreases |ops|
  {
    if ops != [] && HoldsSecond(r, Run(r, t, ops), o) {
      var before := ops[..|ops| - 1];
      if HoldsSecond(r, Run(r, t, before), o) {
        SecondaryOnlyIfTaken(r, t, before, o);
        var k: nat :| SecondedAt(r, t, before, k, o);
        assert before[..k] == ops[..k] && before[..k + 1] == ops[..k + 1];
        assert SecondedAt(r, t, ops, k, o);
      } else {
        RunKeepsInv(r, t, before);
        ApplySeconds(r, Run(r, t, before), ops[|ops| - 1], o);
        assert ops[..|ops| - 1 + 1] == ops;
        assert SecondedAt(r, t, ops, |ops| - 1, o);
      }
    }
  }
}
