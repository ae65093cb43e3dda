/** The store as the code writes it: transactions that change the tables step by step and are rolled back
    as a whole (internal/store/principals.go, internal/store/password.go). */
module KeyStore {

  import opened Bytes
  import opened Keys

  lemma DerivedNoneStays(r: Realm, password: seq<byte>, name: string, etypes: seq<int>, i: nat)
    requires i < |etypes| && r.stringToKey(etypes[i], password, r.salt(name)).None?
    ensures Derived(r, password, name, etypes).None?
  {
    DerivedIff(r, password, name, etypes);
  }

  /** One key per enctype, failing at the first that cannot be derived. */
  method DeriveKeys(r: Realm, password: seq<byte>, name: string, etypes: seq<int>) returns (keys: Option<seq<Key>>)
    ensures keys == Derived(r, password, name, etypes)
  {
    var out: seq<Key> := [];
    for i := 0 to |etypes|
      invariant Derived(r, password, name, etypes[..i]) == Some(out)
    {
      var value := r.stringToKey(etypes[i], password, r.salt(name));
      if value.None? {
        DerivedNoneStays(r, password, name, etypes, i);
        return None;
      }
      assert etypes[..i + 1][..i] == etypes[..i];
      out := out + [Key(etypes[i], value.value, r.salt(name))];
    }
    assert etypes[..|etypes|] == etypes;
    return Some(out);
  }

  lemma Rolls(t: Tables, id: Id, keys: seq<Key>, now: nat)
    requires id in t.principals && Storable(keys)
    ensures var kvno := t.principals[id].kvno + 1;
            var written := t.keys[Version(id, kvno) := keys];
            var left := map v | v in written && !(v.id == id && v.kvno <= kvno - GENERATIONS) :: written[v];
            Rolled(t, id, keys, now) ==
            Some(t.(keys := left, principals := t.principals[id := RolledAccount(t.principals[id], now)]))
  {
    var kvno := t.principals[id].kvno + 1;
    var written := t.keys[Version(id, kvno) := keys];
    var left := map v | v in written && !(v.id == id && v.kvno <= kvno - GENERATIONS) :: written[v];
    assert left == Rolled(t, id, keys, now).value.keys;
  }

  /** The key row of one version after some principals were re-keyed. */
  function RowAfter(r: Realm, t: Tables, ids: set<Id>, password: seq<byte>, etypes: seq<int>, v: Version): Option<seq<Key>>
    requires AllTake(r, t, ids, password, etypes)
  {
    if v.id in ids && IsNext(t, v) then Some(KeysFor(r, t, v.id, password, etypes).value)
    else if v in t.keys && (v.id !in ids || Survives(t, v, v.id)) then Some(t.keys[v])
    else None
  }

  lemma RowRekeyed(r: Realm, t: Tables, ids: set<Id>, password: seq<byte>, etypes: seq<int>, now: nat, expires: nat, v: Version)
    requires AllTake(r, t, ids, password, etypes)
    ensures var keys := Rekeyed(r, t, ids, password, etypes, now, expires).keys;
            RowAfter(r, t, ids, password, etypes, v) == if v in keys then Some(keys[v]) else None
  {
  }

  /** Rolling one principal touches the rows of that principal only. */
  lemma RowRolled(t: Tables, id: Id, keys: seq<Key>, now: nat, v: Version)
    requires id in t.principals && Storable(keys)
    ensures var rows := Rolled(t, id, keys, now).value.keys;
            (if v in rows then Some(rows[v]) else None) ==
            if v == Next(t, id) then Some(keys)
            else if v in t.keys && Survives(t, v, id) then Some(t.keys[v])
            else None
  {
  }

  lemma SameRow(r: Realm, base: Tables, done: set<Id>, id: Id, password: seq<byte>, etypes: seq<int>, now: nat, expires: nat, v: Version)
    requires AllTake(r, base, done, password, etypes) && Takes(r, base, id, password, etypes) && id !in done
    requires AllTake(r, base, done + {id}, password, etypes)
    ensures var t := Rekeyed(r, base, done, password, etypes, now, expires);
            var rows := Rolled(t, id, KeysFor(r, base, id, password, etypes).value, now).value.keys;
            RowAfter(r, base, done + {id}, password, etypes, v) == if v in rows then Some(rows[v]) else None
  {
    var t := Rekeyed(r, base, done, password, etypes, now, expires);
    assert t.principals[id] == base.principals[id];
    RowRekeyed(r, base, done, password, etypes, now, expires, v);
    RowRolled(t, id, KeysFor(r, base, id, password, etypes).value, now, v);
  }

  lemma SameRows(a: map<Version, seq<Key>>, b: map<Version, seq<Key>>)
    requires forall v: Version :: (v in a <==> v in b) && (v in a ==> a[v] == b[v])
    ensures a == b
  {
  }

  lemma OneMoreKeys(r: Realm, base: Tables, done: set<Id>, id: Id, password: seq<byte>, etypes: seq<int>, now: nat, expires: nat)
    requires AllTake(r, base, done + {id}, password, etypes) && id !in done
    ensures var t := Rekeyed(r, base, done, password, etypes, now, expires);
            Takes(r, base, id, password, etypes) &&
            Rolled(t, id, KeysFor(r, base, id, password, etypes).value, now).value.keys
            == Rekeyed(r, base, done + {id}, password, etypes, now, expires).keys
  {
    assert Takes(r, base, id, password, etypes);
    var t := Rekeyed(r, base, done, password, etypes, now, expires);
    var rolled := Rolled(t, id, KeysFor(r, base, id, password, etypes).value, now).value.keys;
    var rekeyed := Rekeyed(r, base, done + {id}, password, etypes, now, expires).keys;
    forall v: Version ensures (v in rolled <==> v in rekeyed) && (v in rolled ==> rolled[v] == rekeyed[v]) {
      SameRow(r, base, done, id, password, etypes, now, expires, v);
      RowRekeyed(r, base, done + {id}, password, etypes, now, expires, v);
    }
    SameRows(rolled, rekeyed);
  }

  /** Re-keying one more principal after the others is re-keying all of them. */
  lemma OneMore(r: Realm, base: Tables, done: set<Id>, id: Id, password: seq<byte>, etypes: seq<int>, now: nat, expires: nat)
    requires AllTake(r, base, done + {id}, password, etypes) && id !in done
    ensures var t := Rekeyed(r, base, done, password, etypes, now, expires);
            && Takes(r, base, id, password, etypes)
            && RekeyedOne(t, id, KeysFor(r, base, id, password, etypes).value, now, expires)
               == Rekeyed(r, base, done + {id}, password, etypes, now, expires)
  {
    assert Takes(r, base, id, password, etypes);
    OneMoreKeys(r, base, done, id, password, etypes, now, expires);
    var t := Rekeyed(r, base, done, password, etypes, now, expires);
    var rolled := Rolled(t, id, KeysFor(r, base, id, password, etypes).value, now).value;
    assert rolled.principals[id := rolled.principals[id].(passwordExpires := expires)]
        == Rekeyed(r, base, done + {id}, password, etypes, now, expires).principals;
  }

  lemma NoneRekeyed(r: Realm, t: Tables, password: seq<byte>, etypes: seq<int>, now: nat, expires: nat)
    ensures Rekeyed(r, t, {}, password, etypes, now, expires) == t
  {
    var t' := Rekeyed(r, t, {}, password, etypes, now, expires);
    assert t'.principals == t.principals && t'.keys == t.keys;
  }

  /** What one more principal is given does not depend on those before it. */
  lemma TakesAlike(r: Realm, base: Tables, done: set<Id>, id: Id, password: seq<byte>, etypes: seq<int>, now: nat, expires: nat)
    requires AllTake(r, base, done, password, etypes) && id in base.principals
    ensures var t := Rekeyed(r, base, done, password, etypes, now, expires);
            && id in t.principals && KeysFor(r, t, id, password, etypes) == KeysFor(r, base, id, password, etypes)
            && (Takes(r, t, id, password, etypes) <==> Takes(r, base, id, password, etypes))
  {
  }

  method HasEtype(rows: seq<Key>, etype: int) returns (found: bool)
    ensures found <==> exists i :: 0 <= i < |rows| && rows[i].etype == etype
  {
    for i := 0 to |rows|
      invariant forall j | 0 <= j < i :: rows[j].etype != etype
    {
      if rows[i].etype == etype {
        return true;
      }
    }
    return false;
  }

  /** The tables after one principal of a user was re-keyed. */
  function RekeyedOne(t: Tables, id: Id, keys: seq<Key>, now: nat, expires: nat): Tables
    requires id in t.principals && Storable(keys)
  {
    var rolled := Rolled(t, id, keys, now).value;
    rolled.(principals := rolled.principals[id := rolled.principals[id].(passwordExpires := expires)])
  }

  class Store {
    const r: Realm
    var t: Tables

    constructor (r: Realm)
      ensures this.r == r && t == EMPTY && Inv(t)
    {
      this.r, t := r, EMPTY;
    }

    /** Replaces one version row by row; the table refuses a second key of one enctype. */
    method WriteKeys(id: Id, kvno: int, keys: seq<Key>) returns (ok: bool)
      modifies this
      ensures ok <==> Storable(keys)
      ensures ok ==> t == old(t).(keys := old(t).keys[Version(id, kvno) := keys])
    {
      if keys == [] {
        return false;
      }
      var v := Version(id, kvno);
      t := t.(keys := t.keys - {v});
      var rows: seq<Key> := [];
      for i := 0 to |keys|
        invariant rows == keys[..i] && Distinct(keys[..i])
        invariant t == old(t).(keys := if i == 0 then old(t).keys - {v} else old(t).keys[v := rows])
      {
        var taken := HasEtype(rows, keys[i].etype);
        if taken {
          var j :| 0 <= j < i && keys[j].etype == keys[i].etype;
          return false;
        }
        rows := rows + [keys[i]];
        t := t.(keys := t.keys[v := rows]);
        assert t.keys == old(t).keys[v := rows];
      }
      assert keys[..|keys|] == keys;
      return true;
    }

    method RollKeys(id: Id, keys: seq<Key>, now: nat) returns (ok: bool)
      requires id in t.principals
      modifies this
      ensures ok <==> Rolled(old(t), id, keys, now).Some?
      ensures ok ==> t == Rolled(old(t), id, keys, now).value
    {
      var kvno := t.principals[id].kvno + 1;
      ok := WriteKeys(id, kvno, keys);
      if ok {
        Rolls(old(t), id, keys, now);
        t := t.(keys := map v | v in t.keys && !(v.id == id && v.kvno <= kvno - GENERATIONS) :: t.keys[v]);
        t := t.(principals := t.principals[id := RolledAccount(t.principals[id], now)]);
      }
    }

    method SetKeys(name: string, keys: seq<Key>, now: nat) returns (ok: bool)
      requires Inv(t)
      modifies this
      ensures ok <==> Keys.SetKeys(old(t), name, keys, now).Some?
      ensures t == if ok then Keys.SetKeys(old(t), name, keys, now).value else old(t)
      ensures Inv(t)
    {
      var saved := t;
      var found := Find(t, name);
      if found.None? {
        return false;
      }
      SetKeysKeepsInv(t, name, keys, now);
      ok := RollKeys(found.value, keys, now);
      if !ok {
        t := saved;
      }
    }

    method SetPrincipalPassword(name: string, password: seq<byte>, etypes: seq<int>, now: nat) returns (ok: bool)
      requires Inv(t)
      modifies this
      ensures ok <==> Keys.SetPrincipalPassword(r, old(t), name, password, etypes, now).Some?
      ensures t == if ok then Keys.SetPrincipalPassword(r, old(t), name, password, etypes, now).value else old(t)
      ensures Inv(t)
    {
      var found := Find(t, name);
      if found.None? {
        return false;
      }
      var canonical := t.principals[found.value].name;
      var keys := DeriveKeys(r, password, canonical, etypes);
      if keys.None? {
        return false;
      }
      ok := SetKeys(canonical, keys.value, now);
    }

    /** The digest and the keys of every linked principal, in one transaction. */
    method SetUserPassword(user: string, password: seq<byte>, etypes: seq<int>, now: nat, expires: nat) returns (ok: bool)
      requires Inv(t)
      modifies this
      ensures ok <==> Keys.SetUserPassword(r, old(t), user, password, etypes, now, expires).Some?
      ensures t == if ok then Keys.SetUserPassword(r, old(t), user, password, etypes, now, expires).value else old(t)
      ensures Inv(t)
    {
      if |password| > MAX_PASSWORD || user !in t.digests {
        return false;
      }
      SetUserPasswordKeepsInv(r, t, user, password, etypes, now, expires);
      var saved := t;
      t := t.(digests := t.digests[user := Bcrypt(password)]);
      ok := RekeyAll(Linked(saved, user), password, etypes, now, expires);
      if !ok {
        t := saved;
      }
    }

    method RekeyAll(ids: set<Id>, password: seq<byte>, etypes: seq<int>, now: nat, expires: nat) returns (ok: bool)
      requires ids <= t.principals.Keys
      modifies this
      ensures ok <==> AllTake(r, old(t), ids, password, etypes)
      ensures ok ==> t == Rekeyed(r, old(t), ids, password, etypes, now, expires)
    {
      var todo := ids;
      NoneRekeyed(r, t, password, etypes, now, expires);
      while todo != {}
        invariant todo <= ids && AllTake(r, old(t), ids - todo, password, etypes)
        invariant t == Rekeyed(r, old(t), ids - todo, password, etypes, now, expires)
        decreases todo
      {
        var id :| id in todo;
        ghost var done := ids - todo;
        TakesAlike(r, old(t), done, id, password, etypes, now, expires);
        ok := RekeyOne(id, password, etypes, now, expires);
        if !ok {
          return;
        }
        OneMore(r, old(t), done, id, password, etypes, now, expires);
        todo := todo - {id};
        assert ids - todo == done + {id};
      }
      assert ids - todo == ids;
      ok := true;
    }

    method RekeyOne(id: Id, password: seq<byte>, etypes: seq<int>, now: nat, expires: nat) returns (ok: bool)
      requires id in t.principals
      modifies this
      ensures ok <==> Takes(r, old(t), id, password, etypes)
      ensures ok ==> t == RekeyedOne(old(t), id, KeysFor(r, old(t), id, password, etypes).value, now, expires)
    {
      var keys := DeriveKeys(r, password, t.principals[id].name, etypes);
      if keys.None? {
        return false;
      }
      ok := RollKeys(id, keys.value, now);
      if ok {
        t := t.(principals := t.principals[id := t.principals[id].(passwordExpires := expires)]);
      }
    }

    /** A new principal at version 1 unless told otherwise, under a row number the database picks. */
    method CreatePrincipal(id: Id, name: string, aliases: set<string>, user: Option<string>, kvno: int, keys: seq<Key>, now: nat)
      returns (ok: bool)
      requires Inv(t) && id !in t.principals
      modifies this
      ensures ok <==> Create(old(t), id, name, aliases, user, kvno, keys, now).Some?
      ensures t == if ok then Create(old(t), id, name, aliases, user, kvno, keys, now).value else old(t)
      ensures Inv(t)
    {
      var saved := t;
      CreateKeepsInv(t, id, name, aliases, user, kvno, keys, now);
      var first := if kvno <= 0 then 1 else kvno;
      if name in t.names || name in t.aliases || (user.Some? && user.value !in t.digests) {
        return false;
      }
      t := t.(principals := t.principals[id := Account(name, user, first, 0, 0, now, 0)], names := t.names[name := id]);
      ok := WriteKeys(id, first, keys);
      if !ok || exists a | a in aliases :: a in t.names || a in t.aliases {
        ok := false;
        t := saved;
        return;
      }
      t := t.(aliases := t.aliases + map a | a in aliases :: id);
    }

    /** The last step of a password request: both credentials where there are two, one where there is one. */
    method ApplyPassword(subject: string, password: seq<byte>, now: nat) returns (ok: bool)
      requires Inv(t)
      modifies this
      ensures ok <==> Kpasswd(r, old(t), subject, password, now).Some?
      ensures t == if ok then Kpasswd(r, old(t), subject, password, now).value else old(t)
      ensures Inv(t)
    {
      if |password| < r.minLength || |password| > MAX_PASSWORD {
        return false;
      }
      var found := Find(t, subject);
      if found.None? {
        return false;
      }
      var user := t.principals[found.value].user;
      if user.Some? {
        ok := SetUserPassword(user.value, password, r.etypes, now, 0);
      } else {
        ok := SetPrincipalPassword(subject, password, r.etypes, now);
      }
    }
  }
}
