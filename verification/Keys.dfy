/** Key versions and passwords (internal/store/principals.go, internal/store/password.go and the end of
    internal/kpasswd/server.go): every write is one transaction over the tables. */
module Keys {

  import opened Bytes

  datatype Option<T> = None | Some(value: T)

  /** The row number of a principal. */
  datatype Id = Id(n: nat)

  datatype Key = Key(etype: int, value: seq<byte>, salt: string)

  /** The digest an LDAP bind is checked against, named by the password it was made from. */
  datatype Digest = NoDigest | Bcrypt(password: seq<byte>)

  datatype Account = Account(
    name: string, user: Option<string>, kvno: int,
    failCount: nat, lockedUntil: nat, passwordSet: nat, passwordExpires: nat)

  datatype Version = Version(id: Id, kvno: int)

  /** The tables: principals, their names and aliases, their keys by version, and the users' digests. */
  datatype Tables = Tables(
    principals: map<Id, Account>,
    names: map<string, Id>,
    aliases: map<string, Id>,
    keys: map<Version, seq<Key>>,
    digests: map<string, Digest>)

  /** String-to-key, the default salt of a name, and the enctypes kpasswd derives. */
  datatype Realm = Realm(
    stringToKey: (int, seq<byte>, string) -> Option<seq<byte>>,
    salt: string -> string,
    etypes: seq<int>,
    minLength: nat)

  const GENERATIONS := 2
  const MAX_PASSWORD := 72

  // ----- Reading -----

  function Find(t: Tables, name: string): Option<Id> {
    if name in t.names then Some(t.names[name])
    else if name in t.aliases then Some(t.aliases[name])
    else None
  }

  /** The keys of one version, zero meaning the current one. */
  function Load(t: Tables, id: Id, kvno: int): seq<Key>
    requires id in t.principals
  {
    var v := Version(id, if kvno == 0 then t.principals[id].kvno else kvno);
    if v in t.keys then t.keys[v] else []
  }

  function Linked(t: Tables, user: string): set<Id> {
    set id | id in t.principals && t.principals[id].user == Some(user)
  }

  // ----- Deriving -----

  /** One key per enctype, in order, or nothing if one of them cannot be derived. */
  function Derived(r: Realm, password: seq<byte>, name: string, etypes: seq<int>): Option<seq<Key>> {
    if etypes == [] then Some([])
    else
      var rest := Derived(r, password, name, etypes[..|etypes| - 1]);
      var last := r.stringToKey(etypes[|etypes| - 1], password, r.salt(name));
      if rest.None? || last.None? then None
      else Some(rest.value + [Key(etypes[|etypes| - 1], last.value, r.salt(name))])
  }

  predicate Distinct(keys: seq<Key>) {
    forall i, j | 0 <= i < j < |keys| :: keys[i].etype != keys[j].etype
  }

  /** What the key table takes as one version: some keys, and one per enctype. */
  predicate Storable(keys: seq<Key>) {
    keys != [] && Distinct(keys)
  }

  // ----- Writing -----

  /** The account after its keys were rolled. */
  function RolledAccount(a: Account, now: nat): Account {
    a.(kvno := a.kvno + 1, failCount := 0, lockedUntil := 0, passwordSet := now)
  }

  /** Only a version above the cut survives. */
  predicate Survives(t: Tables, v: Version, id: Id)
    requires id in t.principals
  {
    v.id != id || v.kvno > t.principals[id].kvno + 1 - GENERATIONS
  }

  function Rolled(t: Tables, id: Id, keys: seq<Key>, now: nat): Option<Tables>
    requires id in t.principals
  {
    if !Storable(keys) then None
    else
      var a := RolledAccount(t.principals[id], now);
      Some(t.(principals := t.principals[id := a],
              keys := (map v | v in t.keys && Survives(t, v, id) :: t.keys[v])[Version(id, a.kvno) := keys]))
  }

  function SetKeys(t: Tables, name: string, keys: seq<Key>, now: nat): Option<Tables> {
    match Find(t, name)
    case None => None
    case Some(id) => if id in t.principals then Rolled(t, id, keys, now) else None
  }

  function SetPrincipalPassword(r: Realm, t: Tables, name: string, password: seq<byte>, etypes: seq<int>, now: nat): Option<Tables> {
    match Find(t, name)
    case None => None
    case Some(id) =>
      if id !in t.principals then None
      else
        var canonical := t.principals[id].name;
        var keys := Derived(r, password, canonical, etypes);
        if keys.None? then None else SetKeys(t, canonical, keys.value, now)
  }

  /** The keys a password gives one principal. */
  function KeysFor(r: Realm, t: Tables, id: Id, password: seq<byte>, etypes: seq<int>): Option<seq<Key>>
    requires id in t.principals
  {
    Derived(r, password, t.principals[id].name, etypes)
  }

  predicate Takes(r: Realm, t: Tables, id: Id, password: seq<byte>, etypes: seq<int>) {
    && id in t.principals
    && KeysFor(r, t, id, password, etypes).Some? && Storable(KeysFor(r, t, id, password, etypes).value)
  }

  predicate AllTake(r: Realm, t: Tables, ids: set<Id>, password: seq<byte>, etypes: seq<int>) {
    forall id | id in ids :: Takes(r, t, id, password, etypes)
  }

  /** The next key version of a principal. */
  function Next(t: Tables, id: Id): Version
    requires id in t.principals
  {
    Version(id, t.principals[id].kvno + 1)
  }

  /** The account, and the keys, of a principal re-keyed together with its user. */
  function RekeyedAccount(a: Account, now: nat, expires: nat): Account {
    RolledAccount(a, now).(passwordExpires := expires)
  }

  predicate IsNext(t: Tables, v: Version) {
    v.id in t.principals && v == Next(t, v.id)
  }

  /** All of `ids` re-keyed from one password, in no particular order. */
  function Rekeyed(r: Realm, t: Tables, ids: set<Id>, password: seq<byte>, etypes: seq<int>, now: nat, expires: nat): Tables
    requires AllTake(r, t, ids, password, etypes)
  {
    t.(principals := map id | id in t.principals ::
                       if id in ids then RekeyedAccount(t.principals[id], now, expires) else t.principals[id],
       keys := map v | v in t.keys.Keys + (set id | id in ids :: Next(t, id))
                       && (v.id !in ids || IsNext(t, v) || Survives(t, v, v.id)) ::
                 if v.id in ids && IsNext(t, v) then KeysFor(r, t, v.id, password, etypes).value else t.keys[v])
  }

  function SetUserPassword(r: Realm, t: Tables, user: string, password: seq<byte>, etypes: seq<int>, now: nat, expires: nat): Option<Tables> {
    if |password| > MAX_PASSWORD || user !in t.digests then None
    else if !AllTake(r, t, Linked(t, user), password, etypes) then None
    else Some(Rekeyed(r, t.(digests := t.digests[user := Bcrypt(password)]), Linked(t, user), password, etypes, now, expires))
  }

  function Creatable(t: Tables, id: Id, name: string, aliases: set<string>, user: Option<string>, keys: seq<Key>): bool {
    && id !in t.principals && name !in t.names && name !in t.aliases && Storable(keys)
    && name !in aliases && (forall a | a in aliases :: a !in t.names && a !in t.aliases)
    && (user.Some? ==> user.value in t.digests)
  }

  function Create(t: Tables, id: Id, name: string, aliases: set<string>, user: Option<string>, kvno: int, keys: seq<Key>, now: nat): Option<Tables> {
    if !Creatable(t, id, name, aliases, user, keys) then None
    else
      var k := if kvno <= 0 then 1 else kvno;
      Some(t.(principals := t.principals[id := Account(name, user, k, 0, 0, now, 0)],
              names := t.names[name := id],
              aliases := t.aliases + map a | a in aliases :: id,
              keys := t.keys[Version(id, k) := keys]))
  }

  /** Principals that go take their keys, names and aliases along. */
  function Without(t: Tables, ids: set<Id>): Tables {
    t.(principals := map id | id in t.principals && id !in ids :: t.principals[id],
       names := map n | n in t.names && t.names[n] !in ids :: t.names[n],
       aliases := map a | a in t.aliases && t.aliases[a] !in ids :: t.aliases[a],
       keys := map v | v in t.keys && v.id !in ids :: t.keys[v])
  }

  function Link(t: Tables, name: string, user: Option<string>): Option<Tables> {
    match Find(t, name)
    case None => None
    case Some(id) =>
      if id !in t.principals || (user.Some? && user.value !in t.digests) then None
      else Some(t.(principals := t.principals[id := t.principals[id].(user := user)]))
  }

  /** What kpasswd does once the ticket and the request are in order. */
  function Kpasswd(r: Realm, t: Tables, subject: string, password: seq<byte>, now: nat): Option<Tables> {
    if |password| < r.minLength || |password| > MAX_PASSWORD then None
    else match Find(t, subject)
         case None => None
         case Some(id) =>
           if id !in t.principals then None
           else match t.principals[id].user
                case Some(user) => SetUserPassword(r, t, user, password, r.etypes, now, 0)
                case None => SetPrincipalPassword(r, t, subject, password, r.etypes, now)
  }

  // ----- Runs -----

  datatype Event =
    | AddUser(user: string)
    | DropUser(user: string)
    | ClearPassword(user: string)
    | UserPassword(user: string, password: seq<byte>, etypes: seq<int>, now: nat, expires: nat)
    | AddPrincipal(id: Id, name: string, aliases: set<string>, owner: Option<string>, kvno: int, keys: seq<Key>, now: nat)
    | DropPrincipal(name: string)
    | LinkTo(name: string, owner: Option<string>)
    | NewKeys(name: string, keys: seq<Key>, now: nat)
    | PrincipalPassword(name: string, password: seq<byte>, etypes: seq<int>, now: nat)
    | PasswordRequest(name: string, password: seq<byte>, now: nat)

  /** One write; nothing means that it failed and was rolled back. */
  function Write(r: Realm, t: Tables, e: Event): Option<Tables> {
    match e
    case AddUser(user) => if user in t.digests then None else Some(t.(digests := t.digests[user := NoDigest]))
    case DropUser(user) =>
      if user !in t.digests then None else Some(Without(t, Linked(t, user)).(digests := t.digests - {user}))
    case ClearPassword(user) => if user !in t.digests then None else Some(t.(digests := t.digests[user := NoDigest]))
    case UserPassword(user, password, etypes, now, expires) => SetUserPassword(r, t, user, password, etypes, now, expires)
    case AddPrincipal(id, name, aliases, owner, kvno, keys, now) => Create(t, id, name, aliases, owner, kvno, keys, now)
    case DropPrincipal(name) => if name !in t.names then None else Some(Without(t, {t.names[name]}))
    case LinkTo(name, owner) => Link(t, name, owner)
    case NewKeys(name, keys, now) => SetKeys(t, name, keys, now)
    case PrincipalPassword(name, password, etypes, now) => SetPrincipalPassword(r, t, name, password, etypes, now)
    case PasswordRequest(name, password, now) => Kpasswd(r, t, name, password, now)
  }

  function Step(r: Realm, t: Tables, e: Event): Tables {
    var w := Write(r, t, e);
    if w.Some? then w.value else t
  }

  function Run(r: Realm, t: Tables, es: seq<Event>): Tables {
    if es == [] then t else Step(r, Run(r, t, es[..|es| - 1]), es[|es| - 1])
  }

  // ----- The invariant -----

  /** A stored version has keys, and belongs to its principal's current or previous generation. */
  predicate Recent(t: Tables, v: Version) {
    && v.id in t.principals && v in t.keys && t.keys[v] != []
    && t.principals[v.id].kvno - 1 <= v.kvno <= t.principals[v.id].kvno
  }

  /** A principal has current keys, its own name, and a user that exists if it has one. */
  predicate Sound(t: Tables, id: Id) {
    && id in t.principals
    && t.principals[id].kvno >= 1 && Version(id, t.principals[id].kvno) in t.keys
    && t.principals[id].name in t.names && t.names[t.principals[id].name] == id
    && (t.principals[id].user.Some? ==> t.principals[id].user.value in t.digests)
  }

  predicate Named(t: Tables, name: string) {
    name in t.names && t.names[name] in t.principals && t.principals[t.names[name]].name == name
  }

  predicate Inv(t: Tables) {
    && (forall v | v in t.keys :: Recent(t, v))
    && (forall id | id in t.principals :: Sound(t, id))
    && (forall n | n in t.names :: Named(t, n))
    && (forall a | a in t.aliases :: t.aliases[a] in t.principals)
  }

  const EMPTY := Tables(map[], map[], map[], map[], map[])

  // ----- Rolling -----

  lemma RolledKeepsInv(t: Tables, id: Id, keys: seq<Key>, now: nat)
    requires Inv(t) && id in t.principals && Rolled(t, id, keys, now).Some?
    ensures Inv(Rolled(t, id, keys, now).value)
  {
    var t' := Rolled(t, id, keys, now).value;
    forall v | v in t'.keys ensures Recent(t', v) { if v in t.keys { assert Recent(t, v); } }
    forall i | i in t'.principals ensures Sound(t', i) { assert Sound(t, i); }
    forall n | n in t'.names ensures Named(t', n) { assert Named(t, n); }
  }

  lemma RekeyedSound(r: Realm, t: Tables, ids: set<Id>, password: seq<byte>, etypes: seq<int>, now: nat, expires: nat, id: Id)
    requires AllTake(r, t, ids, password, etypes) && Sound(t, id)
    ensures Sound(Rekeyed(r, t, ids, password, etypes, now, expires), id)
  {
    if id in ids { assert Next(t, id) in Rekeyed(r, t, ids, password, etypes, now, expires).keys; }
  }

  lemma RekeyedRecent(r: Realm, t: Tables, ids: set<Id>, password: seq<byte>, etypes: seq<int>, now: nat, expires: nat, v: Version)
    requires AllTake(r, t, ids, password, etypes) && v in Rekeyed(r, t, ids, password, etypes, now, expires).keys
    requires v in t.keys ==> Recent(t, v)
    ensures Recent(Rekeyed(r, t, ids, password, etypes, now, expires), v)
  {
  }

  lemma RekeyedKeepsInv(r: Realm, t: Tables, ids: set<Id>, password: seq<byte>, etypes: seq<int>, now: nat, expires: nat)
    requires Inv(t) && AllTake(r, t, ids, password, etypes)
    ensures Inv(Rekeyed(r, t, ids, password, etypes, now, expires))
  {
    var t' := Rekeyed(r, t, ids, password, etypes, now, expires);
    forall v | v in t'.keys ensures Recent(t', v) { RekeyedRecent(r, t, ids, password, etypes, now, expires, v); }
    forall id | id in t'.principals ensures Sound(t', id) { RekeyedSound(r, t, ids, password, etypes, now, expires, id); }
    forall n | n in t'.names ensures Named(t', n) { assert Named(t, n); }
  }

  lemma SetUserPasswordKeepsInv(r: Realm, t: Tables, user: string, password: seq<byte>, etypes: seq<int>, now: nat, expires: nat)
    requires Inv(t)
    ensures var w := SetUserPassword(r, t, user, password, etypes, now, expires); w.Some? ==> Inv(w.value)
  {
    var w := SetUserPassword(r, t, user, password, etypes, now, expires);
    if w.Some? {
      DigestsKeepInv(t, t.digests[user := Bcrypt(password)]);
      RekeyedKeepsInv(r, t.(digests := t.digests[user := Bcrypt(password)]), Linked(t, user), password, etypes, now, expires);
    }
  }

  lemma DigestsKeepInv(t: Tables, digests: map<string, Digest>)
    requires Inv(t)
    requires forall id | id in t.principals :: t.principals[id].user.Some? ==> t.principals[id].user.value in digests
    ensures Inv(t.(digests := digests))
  {
    var t' := t.(digests := digests);
    forall v | v in t'.keys ensures Recent(t', v) { assert Recent(t, v); }
    forall id | id in t'.principals ensures Sound(t', id) { assert Sound(t, id); }
    forall n | n in t'.names ensures Named(t', n) { assert Named(t, n); }
  }

  lemma CreateKeepsInv(t: Tables, id: Id, name: string, aliases: set<string>, user: Option<string>, kvno: int, keys: seq<Key>, now: nat)
    requires Inv(t)
    ensures var w := Create(t, id, name, aliases, user, kvno, keys, now); w.Some? ==> Inv(w.value)
  {
    var w := Create(t, id, name, aliases, user, kvno, keys, now);
    if w.Some? {
      var t' := w.value;
      forall v | v in t'.keys ensures Recent(t', v) { if v in t.keys { assert Recent(t, v); } }
      forall i | i in t'.principals ensures Sound(t', i) { if i in t.principals { assert Sound(t, i); } }
      forall n | n in t'.names ensures Named(t', n) { if n in t.names { assert Named(t, n); } }
    }
  }

  lemma WithoutKeepsInv(t: Tables, ids: set<Id>)
    requires Inv(t)
    ensures Inv(Without(t, ids))
  {
    var t' := Without(t, ids);
    forall v | v in t'.keys ensures Recent(t', v) { assert Recent(t, v); }
    forall id | id in t'.principals ensures Sound(t', id) { assert Sound(t, id); }
    forall n | n in t'.names ensures Named(t', n) { assert Named(t, n); }
  }

  lemma DropUserKeepsInv(t: Tables, user: string)
    requires Inv(t)
    ensures Inv(Without(t, Linked(t, user)).(digests := t.digests - {user}))
  {
    WithoutKeepsInv(t, Linked(t, user));
    var w := Without(t, Linked(t, user));
    forall id | id in w.principals ensures w.principals[id].user.Some? ==> w.principals[id].user.value in t.digests - {user} {
      assert Sound(w, id);
    }
    DigestsKeepInv(w, t.digests - {user});
  }

  lemma LinkKeepsInv(t: Tables, name: string, user: Option<string>)
    requires Inv(t)
    ensures var w := Link(t, name, user); w.Some? ==> Inv(w.value)
  {
    var w := Link(t, name, user);
    if w.Some? {
      var t' := w.value;
      forall v | v in t'.keys ensures Recent(t', v) { assert Recent(t, v); }
      forall id | id in t'.principals ensures Sound(t', id) { assert Sound(t, id); }
      forall n | n in t'.names ensures Named(t', n) { assert Named(t, n); }
    }
  }

  lemma SetKeysKeepsInv(t: Tables, name: string, keys: seq<Key>, now: nat)
    requires Inv(t)
    ensures var w := SetKeys(t, name, keys, now); w.Some? ==> Inv(w.value)
  {
    if SetKeys(t, name, keys, now).Some? { RolledKeepsInv(t, Find(t, name).value, keys, now); }
  }

  lemma PrincipalPasswordKeepsInv(r: Realm, t: Tables, name: string, password: seq<byte>, etypes: seq<int>, now: nat)
    requires Inv(t)
    ensures var w := SetPrincipalPassword(r, t, name, password, etypes, now); w.Some? ==> Inv(w.value)
  {
    var w := SetPrincipalPassword(r, t, name, password, etypes, now);
    if w.Some? {
      var canonical := t.principals[Find(t, name).value].name;
      SetKeysKeepsInv(t, canonical, Derived(r, password, canonical, etypes).value, now);
    }
  }

  lemma KpasswdKeepsInv(r: Realm, t: Tables, name: string, password: seq<byte>, now: nat)
    requires Inv(t)
    ensures var w := Kpasswd(r, t, name, password, now); w.Some? ==> Inv(w.value)
  {
    if Kpasswd(r, t, name, password, now).Some? {
      var user := t.principals[Find(t, name).value].user;
      if user.Some? {
        SetUserPasswordKeepsInv(r, t, user.value, password, r.etypes, now, 0);
      } else {
        PrincipalPasswordKeepsInv(r, t, name, password, r.etypes, now);
      }
    }
  }

  lemma UserPresent(t: Tables, user: string)
    requires Inv(t)
    ensures forall id | id in t.principals :: t.principals[id].user.Some? ==>
              t.principals[id].user.value in t.digests[user := NoDigest]
  {
    forall id | id in t.principals ensures t.principals[id].user.Some? ==> t.principals[id].user.value in t.digests {
      assert Sound(t, id);
    }
  }

  lemma StepKeepsInv(r: Realm, t: Tables, e: Event)
    requires Inv(t)
    ensures Inv(Step(r, t, e))
  {
    match e
    case AddUser(user) =>
      UserPresent(t, user);
      DigestsKeepInv(t, t.digests[user := NoDigest]);
    case DropUser(user) => DropUserKeepsInv(t, user);
    case ClearPassword(user) =>
      UserPresent(t, user);
      DigestsKeepInv(t, t.digests[user := NoDigest]);
    case UserPassword(user, password, etypes, now, expires) => SetUserPasswordKeepsInv(r, t, user, password, etypes, now, expires);
    case AddPrincipal(id, name, aliases, owner, kvno, keys, now) => CreateKeepsInv(t, id, name, aliases, owner, kvno, keys, now);
    case DropPrincipal(name) => if name in t.names { WithoutKeepsInv(t, {t.names[name]}); }
    case LinkTo(name, owner) => LinkKeepsInv(t, name, owner);
    case NewKeys(name, keys, now) => SetKeysKeepsInv(t, name, keys, now);
    case PrincipalPassword(name, password, etypes, now) => PrincipalPasswordKeepsInv(r, t, name, password, etypes, now);
    case PasswordRequest(name, password, now) => KpasswdKeepsInv(r, t, name, password, now);
  }

  /** In every run of the store, each principal has keys at its current version, and the versions stored
      are the current one and the one before it at most. */
  lemma {:induction false} RunKeepsInv(r: Realm, t: Tables, es: seq<Event>)
    requires Inv(t)
    ensures Inv(Run(r, t, es))
    decreases |es|
  {
    if es != [] {
      RunKeepsInv(r, t, es[..|es| - 1]);
      StepKeepsInv(r, Run(r, t, es[..|es| - 1]), es[|es| - 1]);
    }
  }

  // ----- How long a key version opens what it sealed -----

  /** Whether a write gives a principal its next key version. */
  predicate Rekeys(r: Realm, t: Tables, e: Event, id: Id) {
    && Write(r, t, e).Some? && id in t.principals
    && match e
       case NewKeys(name, _, _) => Find(t, name) == Some(id)
       case PrincipalPassword(name, _, _, _) => Find(t, name) == Some(id)
       case UserPassword(user, _, _, _, _) => id in Linked(t, user)
       case PasswordRequest(name, _, _) => Find(t, name) == Some(id) || SharesUser(t, Find(t, name), id)
       case _ => false
  }

  predicate SharesUser(t: Tables, found: Option<Id>, id: Id) {
    && found.Some? && found.value in t.principals && id in t.principals
    && t.principals[found.value].user.Some? && t.principals[id].user == t.principals[found.value].user
  }

  function RekeyCount(r: Realm, t: Tables, es: seq<Event>, id: Id): nat {
    if es == [] then 0
    else
      RekeyCount(r, t, es[..|es| - 1], id)
      + if Rekeys(r, Run(r, t, es[..|es| - 1]), es[|es| - 1], id) then 1 else 0
  }

  /** The principal is there before, during and after the run. */
  predicate Stays(r: Realm, t: Tables, es: seq<Event>, id: Id) {
    id in Run(r, t, es).principals && (es != [] ==> Stays(r, t, es[..|es| - 1], id))
  }

  ghost predicate SameKeys(t: Tables, t': Tables, id: Id) {
    && id in t.principals && id in t'.principals && t'.principals[id].kvno == t.principals[id].kvno
    && forall v: Version | v.id == id :: (v in t'.keys <==> v in t.keys) && (v in t.keys ==> t'.keys[v] == t.keys[v])
  }

  /** One generation on: the version that was current is kept as it was, and what was older is gone. */
  ghost predicate OneOn(t: Tables, t': Tables, id: Id) {
    && id in t.principals && id in t'.principals && t'.principals[id].kvno == t.principals[id].kvno + 1
    && t'.principals[id].failCount == 0 && t'.principals[id].lockedUntil == 0
    && t'.principals[id].name == t.principals[id].name && t'.principals[id].user == t.principals[id].user
    && var was := Version(id, t.principals[id].kvno);
       && was in t.keys && was in t'.keys && t'.keys[was] == t.keys[was]
       && forall v: Version | v.id == id && v.kvno < was.kvno :: v !in t'.keys
  }

  lemma RolledAges(t: Tables, rolled: Id, keys: seq<Key>, now: nat, id: Id)
    requires Inv(t) && rolled in t.principals && id in t.principals && Rolled(t, rolled, keys, now).Some?
    ensures var t' := Rolled(t, rolled, keys, now).value; if id == rolled then OneOn(t, t', id) else SameKeys(t, t', id)
  {
    assert Sound(t, id);
  }

  lemma SetKeysAges(t: Tables, name: string, keys: seq<Key>, now: nat, id: Id)
    requires Inv(t) && id in t.principals && SetKeys(t, name, keys, now).Some?
    ensures var t' := SetKeys(t, name, keys, now).value;
            if Find(t, name) == Some(id) then OneOn(t, t', id) else SameKeys(t, t', id)
  {
    RolledAges(t, Find(t, name).value, keys, now, id);
  }

  lemma PrincipalPasswordAges(r: Realm, t: Tables, name: string, password: seq<byte>, etypes: seq<int>, now: nat, id: Id)
    requires Inv(t) && id in t.principals && SetPrincipalPassword(r, t, name, password, etypes, now).Some?
    ensures var t' := SetPrincipalPassword(r, t, name, password, etypes, now).value;
            if Find(t, name) == Some(id) then OneOn(t, t', id) else SameKeys(t, t', id)
  {
    var found := Find(t, name).value;
    assert Sound(t, found);
    var canonical := t.principals[found].name;
    SetKeysAges(t, canonical, Derived(r, password, canonical, etypes).value, now, id);
  }

  lemma UserPasswordAges(r: Realm, t: Tables, user: string, password: seq<byte>, etypes: seq<int>, now: nat, expires: nat, id: Id)
    requires Inv(t) && id in t.principals && SetUserPassword(r, t, user, password, etypes, now, expires).Some?
    ensures var t' := SetUserPassword(r, t, user, password, etypes, now, expires).value;
            if id in Linked(t, user) then OneOn(t, t', id) else SameKeys(t, t', id)
  {
    assert Sound(t, id);
  }

  lemma KpasswdAges(r: Realm, t: Tables, name: string, password: seq<byte>, now: nat, id: Id)
    requires Inv(t) && id in t.principals && Kpasswd(r, t, name, password, now).Some?
    ensures var t' := Kpasswd(r, t, name, password, now).value;
            if Find(t, name) == Some(id) || SharesUser(t, Find(t, name), id) then OneOn(t, t', id) else SameKeys(t, t', id)
  {
    var user := t.principals[Find(t, name).value].user;
    if user.Some? {
      UserPasswordAges(r, t, user.value, password, r.etypes, now, 0, id);
    } else {
      PrincipalPasswordAges(r, t, name, password, r.etypes, now, id);
    }
  }

  lemma CreateAges(t: Tables, i: Id, name: string, aliases: set<string>, user: Option<string>, kvno: int, keys: seq<Key>, now: nat, id: Id)
    requires id in t.principals && Create(t, i, name, aliases, user, kvno, keys, now).Some?
    ensures SameKeys(t, Create(t, i, name, aliases, user, kvno, keys, now).value, id)
  {
  }

  lemma LinkAges(t: Tables, name: string, user: Option<string>, id: Id)
    requires id in t.principals && Link(t, name, user).Some?
    ensures SameKeys(t, Link(t, name, user).value, id)
  {
  }

  lemma WithoutAges(t: Tables, ids: set<Id>, digests: map<string, Digest>, id: Id)
    requires id in t.principals && id !in ids
    ensures SameKeys(t, Without(t, ids).(digests := digests), id)
  {
  }

  predicate IsRekey(e: Event) {
    e.NewKeys? || e.PrincipalPassword? || e.UserPassword? || e.PasswordRequest?
  }

  lemma OtherStepAges(r: Realm, t: Tables, e: Event, id: Id)
    requires Write(r, t, e).Some? && !IsRekey(e) && id in t.principals && id in Write(r, t, e).value.principals
    ensures SameKeys(t, Write(r, t, e).value, id)
  {
    match e
    case AddPrincipal(i, name, aliases, owner, kvno, keys, now) => CreateAges(t, i, name, aliases, owner, kvno, keys, now, id);
    case LinkTo(name, owner) => LinkAges(t, name, owner, id);
    case DropUser(user) => WithoutAges(t, Linked(t, user), t.digests - {user}, id);
    case DropPrincipal(name) => WithoutAges(t, {t.names[name]}, t.digests, id);
    case AddUser(_) =>
    case ClearPassword(_) =>
  }

  lemma RekeyStepAges(r: Realm, t: Tables, e: Event, id: Id)
    requires Inv(t) && Write(r, t, e).Some? && IsRekey(e) && id in t.principals
    ensures if Rekeys(r, t, e, id) then OneOn(t, Write(r, t, e).value, id) else SameKeys(t, Write(r, t, e).value, id)
  {
    match e
    case NewKeys(name, keys, now) => SetKeysAges(t, name, keys, now, id);
    case PrincipalPassword(name, password, etypes, now) => PrincipalPasswordAges(r, t, name, password, etypes, now, id);
    case UserPassword(user, password, etypes, now, expires) => UserPasswordAges(r, t, user, password, etypes, now, expires, id);
    case PasswordRequest(name, password, now) => KpasswdAges(r, t, name, password, now, id);
  }

  lemma SetKeysStamps(t: Tables, name: string, keys: seq<Key>, now: nat)
    requires Inv(t) && SetKeys(t, name, keys, now).Some?
    ensures SetKeys(t, name, keys, now).value.principals[Find(t, name).value].passwordSet == now
  {
  }

  lemma PrincipalPasswordStamps(r: Realm, t: Tables, name: string, password: seq<byte>, etypes: seq<int>, now: nat)
    requires Inv(t) && SetPrincipalPassword(r, t, name, password, etypes, now).Some?
    ensures SetPrincipalPassword(r, t, name, password, etypes, now).value.principals[Find(t, name).value].passwordSet == now
  {
    var id := Find(t, name).value;
    assert Sound(t, id);
    var canonical := t.principals[id].name;
    SetKeysStamps(t, canonical, Derived(r, password, canonical, etypes).value, now);
  }

  lemma UserPasswordStamps(r: Realm, t: Tables, user: string, password: seq<byte>, etypes: seq<int>, now: nat, expires: nat, id: Id)
    requires SetUserPassword(r, t, user, password, etypes, now, expires).Some? && id in Linked(t, user)
    ensures var t' := SetUserPassword(r, t, user, password, etypes, now, expires).value;
            t'.principals[id].passwordSet == now && t'.principals[id].passwordExpires == expires
  {
  }

  /** Every re-key dates the password. */
  lemma RekeyStamps(r: Realm, t: Tables, e: Event, id: Id)
    requires Inv(t) && Rekeys(r, t, e, id)
    ensures id in Write(r, t, e).value.principals && Write(r, t, e).value.principals[id].passwordSet == e.now
  {
    RekeyStepAges(r, t, e, id);
    match e
    case NewKeys(name, keys, now) => SetKeysStamps(t, name, keys, now);
    case PrincipalPassword(name, password, etypes, now) => PrincipalPasswordStamps(r, t, name, password, etypes, now);
    case UserPassword(user, password, etypes, now, expires) => UserPasswordStamps(r, t, user, password, etypes, now, expires, id);
    case PasswordRequest(name, password, now) =>
      var user := t.principals[Find(t, name).value].user;
      if user.Some? {
        UserPasswordStamps(r, t, user.value, password, r.etypes, now, 0, id);
      } else {
        PrincipalPasswordStamps(r, t, name, password, r.etypes, now);
      }
  }

  lemma StepAges(r: Realm, t: Tables, e: Event, id: Id)
    requires Inv(t) && id in t.principals && id in Step(r, t, e).principals
    ensures if Rekeys(r, t, e, id) then OneOn(t, Step(r, t, e), id) else SameKeys(t, Step(r, t, e), id)
  {
    if Write(r, t, e).Some? {
      if IsRekey(e) {
        RekeyStepAges(r, t, e, id);
      } else {
        OtherStepAges(r, t, e, id);
      }
    }
  }

  lemma AgeStep(t: Tables, mid: Tables, t': Tables, id: Id, n: nat, rekeyed: bool)
    requires Sound(t, id) && id in mid.principals && id in t'.principals
    requires mid.principals[id].kvno == t.principals[id].kvno + n
    requires Load(mid, id, t.principals[id].kvno) == if n <= 1 then Load(t, id, 0) else []
    requires if rekeyed then OneOn(mid, t', id) else SameKeys(mid, t', id)
    ensures var m := n + if rekeyed then 1 else 0;
            && t'.principals[id].kvno == t.principals[id].kvno + m
            && Load(t', id, t.principals[id].kvno) == if m <= 1 then Load(t, id, 0) else []
  {
    var v := Version(id, t.principals[id].kvno);
    assert rekeyed && n > 0 ==> v !in t'.keys;
  }

  /** The version number counts the re-keys, and what a principal's keys sealed can be opened with the
      same keys after one re-key, and with none after two, whatever else happened in between. */
  lemma {:induction false} OpensForOneRekey(r: Realm, t: Tables, es: seq<Event>, id: Id)
    requires Inv(t) && Stays(r, t, es, id)
    ensures id in t.principals && Load(t, id, 0) != []
    ensures var t' := Run(r, t, es);
            var n := RekeyCount(r, t, es, id);
            && t'.principals[id].kvno == t.principals[id].kvno + n
            && Load(t', id, t.principals[id].kvno) == if n <= 1 then Load(t, id, 0) else []
    decreases |es|
  {
    if es == [] {
      assert Sound(t, id);
    } else {
      var before := es[..|es| - 1];
      OpensForOneRekey(r, t, before, id);
      RunKeepsInv(r, t, before);
      var mid := Run(r, t, before);
      StepAges(r, mid, es[|es| - 1], id);
      AgeStep(t, mid, Run(r, t, es), id, RekeyCount(r, t, before, id), Rekeys(r, mid, es[|es| - 1], id));
    }
  }

  // ----- One password behind every credential -----

  /** The digest of the user and the current keys of every linked principal come from one password. */
  predicate FromOne(r: Realm, t: Tables, user: string, password: seq<byte>, etypes: seq<int>) {
    && user in t.digests && t.digests[user] == Bcrypt(password)
    && forall id | id in Linked(t, user) ::
         Takes(r, t, id, password, etypes) && Load(t, id, 0) == KeysFor(r, t, id, password, etypes).value
  }

  ghost predicate InStep(r: Realm, t: Tables, user: string) {
    exists password, etypes :: FromOne(r, t, user, password, etypes)
  }

  lemma {:induction false} DerivedIff(r: Realm, password: seq<byte>, name: string, etypes: seq<int>)
    ensures var keys := Derived(r, password, name, etypes);
            && (keys.Some? <==> forall i | 0 <= i < |etypes| :: r.stringToKey(etypes[i], password, r.salt(name)).Some?)
            && (keys.Some? ==>
                  && |keys.value| == |etypes|
                  && forall i | 0 <= i < |etypes| ::
                       keys.value[i] == Key(etypes[i], r.stringToKey(etypes[i], password, r.salt(name)).value, r.salt(name)))
    decreases |etypes|
  {
    if etypes != [] {
      var rest := etypes[..|etypes| - 1];
      DerivedIff(r, password, name, rest);
      assert forall i | 0 <= i < |rest| :: rest[i] == etypes[i];
    }
  }

  /** A password gives a principal keys exactly when the enctypes are some, different, and known. */
  lemma TakesIff(r: Realm, t: Tables, id: Id, password: seq<byte>, etypes: seq<int>)
    requires id in t.principals
    ensures Takes(r, t, id, password, etypes) <==>
            && etypes != [] && (forall i, j | 0 <= i < j < |etypes| :: etypes[i] != etypes[j])
            && forall i | 0 <= i < |etypes| ::
                 r.stringToKey(etypes[i], password, r.salt(t.principals[id].name)).Some?
  {
    var name := t.principals[id].name;
    DerivedIff(r, password, name, etypes);
    var keys := Derived(r, password, name, etypes);
    if keys.Some? {
      assert forall i | 0 <= i < |etypes| :: keys.value[i].etype == etypes[i];
    }
  }

  /** A password set for a user reaches its digest and every linked principal, one generation on, and
      nothing else. */
  lemma UserPasswordReachesAll(r: Realm, t: Tables, user: string, password: seq<byte>, etypes: seq<int>, now: nat, expires: nat)
    requires Inv(t) && SetUserPassword(r, t, user, password, etypes, now, expires).Some?
    ensures var t' := SetUserPassword(r, t, user, password, etypes, now, expires).value;
            && |password| <= MAX_PASSWORD && Linked(t', user) == Linked(t, user)
            && FromOne(r, t', user, password, etypes)
            && (forall id | id in Linked(t, user) :: OneOn(t, t', id) && t'.principals[id].passwordSet == now && t'.principals[id].passwordExpires == expires)
            && (forall id | id in t.principals && id !in Linked(t, user) ::
                  SameKeys(t, t', id) && t'.principals[id] == t.principals[id])
            && t'.digests - {user} == t.digests - {user}
  {
    var t' := SetUserPassword(r, t, user, password, etypes, now, expires).value;
    forall id | id in t.principals
      ensures if id in Linked(t, user) then OneOn(t, t', id) else SameKeys(t, t', id)
    {
      UserPasswordAges(r, t, user, password, etypes, now, expires, id);
    }
    RekeyedFromOne(r, t, user, password, etypes, now, expires);
  }

  lemma RekeyedFromOne(r: Realm, t: Tables, user: string, password: seq<byte>, etypes: seq<int>, now: nat, expires: nat)
    requires SetUserPassword(r, t, user, password, etypes, now, expires).Some? && Inv(t)
    ensures var t' := SetUserPassword(r, t, user, password, etypes, now, expires).value;
            Linked(t', user) == Linked(t, user) && FromOne(r, t', user, password, etypes)
  {
    var t' := SetUserPassword(r, t, user, password, etypes, now, expires).value;
    forall id | id in Linked(t, user)
      ensures Takes(r, t', id, password, etypes) && Load(t', id, 0) == KeysFor(r, t', id, password, etypes).value
    {
      assert Sound(t, id);
      RekeyedLoads(r, t.(digests := t.digests[user := Bcrypt(password)]), Linked(t, user), password, etypes, now, expires, id);
    }
  }

  lemma RekeyedLoads(r: Realm, t: Tables, ids: set<Id>, password: seq<byte>, etypes: seq<int>, now: nat, expires: nat, id: Id)
    requires AllTake(r, t, ids, password, etypes) && id in ids && t.principals[id].kvno >= 1
    ensures var t' := Rekeyed(r, t, ids, password, etypes, now, expires);
            Takes(r, t', id, password, etypes) && Load(t', id, 0) == KeysFor(r, t', id, password, etypes).value
  {
    assert Takes(r, t, id, password, etypes);
    assert Next(t, id) in Rekeyed(r, t, ids, password, etypes, now, expires).keys;
  }

  /** Credentials untouched stay in step. */
  lemma FrameKeepsFromOne(r: Realm, t: Tables, t': Tables, user: string, password: seq<byte>, etypes: seq<int>)
    requires FromOne(r, t, user, password, etypes) && user in t'.digests && t'.digests[user] == t.digests[user]
    requires forall id | id in Linked(t', user) ::
               id in Linked(t, user) && SameKeys(t, t', id) && t'.principals[id].name == t.principals[id].name
    ensures FromOne(r, t', user, password, etypes)
  {
    forall id | id in Linked(t', user)
      ensures Takes(r, t', id, password, etypes) && Load(t', id, 0) == KeysFor(r, t', id, password, etypes).value
    {
      assert Takes(r, t, id, password, etypes);
    }
  }

  /** The writes that go behind a user's back: they touch its digest or one of its principals alone. */
  predicate Direct(t: Tables, e: Event, user: string) {
    match e
    case DropUser(u) => u == user
    case ClearPassword(u) => u == user
    case AddPrincipal(_, _, _, owner, _, _, _) => owner == Some(user)
    case LinkTo(_, owner) => owner == Some(user)
    case NewKeys(name, _, _) => Find(t, name).Some? && Find(t, name).value in Linked(t, user)
    case PrincipalPassword(name, _, _, _) => Find(t, name).Some? && Find(t, name).value in Linked(t, user)
    case _ => false
  }

  /** A write that sets this user's password. */
  predicate Sets(t: Tables, e: Event, user: string) {
    match e
    case UserPassword(u, _, _, _, _) => u == user
    case PasswordRequest(name, _, _) =>
      && Find(t, name).Some? && Find(t, name).value in t.principals
      && t.principals[Find(t, name).value].user == Some(user)
    case _ => false
  }

  /** Every write that sets a user's password leaves its credentials in step, whatever they were before. */
  lemma SetsInStep(r: Realm, t: Tables, e: Event, user: string)
    requires Inv(t) && Sets(t, e, user) && Write(r, t, e).Some?
    ensures FromOne(r, Write(r, t, e).value, user, e.password, if e.UserPassword? then e.etypes else r.etypes)
    ensures InStep(r, Write(r, t, e).value, user)
  {
    if e.UserPassword? {
      RekeyedFromOne(r, t, user, e.password, e.etypes, e.now, e.expires);
    } else {
      RekeyedFromOne(r, t, user, e.password, r.etypes, e.now, 0);
    }
  }

  /** Nothing about the user changed but that some of its principals may have gone. */
  predicate UserLeft(t: Tables, t': Tables, user: string) {
    && user in t.digests && user in t'.digests && t'.digests[user] == t.digests[user]
    && forall id | id in Linked(t', user) :: id in Linked(t, user) && t'.principals[id].name == t.principals[id].name
  }

  lemma SetKeysLeavesUser(t: Tables, name: string, keys: seq<Key>, now: nat, user: string)
    requires SetKeys(t, name, keys, now).Some? && user in t.digests
    ensures UserLeft(t, SetKeys(t, name, keys, now).value, user)
  {
  }

  lemma UserPasswordLeavesUser(r: Realm, t: Tables, other: string, password: seq<byte>, etypes: seq<int>, now: nat, expires: nat, user: string)
    requires SetUserPassword(r, t, other, password, etypes, now, expires).Some? && user in t.digests && user != other
    ensures UserLeft(t, SetUserPassword(r, t, other, password, etypes, now, expires).value, user)
  {
  }

  lemma PrincipalPasswordLeavesUser(r: Realm, t: Tables, name: string, password: seq<byte>, etypes: seq<int>, now: nat, user: string)
    requires SetPrincipalPassword(r, t, name, password, etypes, now).Some? && user in t.digests
    ensures UserLeft(t, SetPrincipalPassword(r, t, name, password, etypes, now).value, user)
  {
    var canonical := t.principals[Find(t, name).value].name;
    SetKeysLeavesUser(t, canonical, Derived(r, password, canonical, etypes).value, now, user);
  }

  lemma RekeyLeavesUser(r: Realm, t: Tables, e: Event, user: string)
    requires Write(r, t, e).Some? && IsRekey(e) && !Sets(t, e, user) && user in t.digests
    ensures UserLeft(t, Write(r, t, e).value, user)
  {
    match e
    case NewKeys(name, keys, now) => SetKeysLeavesUser(t, name, keys, now, user);
    case PrincipalPassword(name, password, etypes, now) => PrincipalPasswordLeavesUser(r, t, name, password, etypes, now, user);
    case UserPassword(other, password, etypes, now, expires) =>
      UserPasswordLeavesUser(r, t, other, password, etypes, now, expires, user);
    case PasswordRequest(name, password, now) =>
      var owner := t.principals[Find(t, name).value].user;
      if owner.Some? {
        UserPasswordLeavesUser(r, t, owner.value, password, r.etypes, now, 0, user);
      } else {
        PrincipalPasswordLeavesUser(r, t, name, password, r.etypes, now, user);
      }
  }

  lemma OtherLeavesUser(r: Realm, t: Tables, e: Event, user: string)
    requires Inv(t) && Write(r, t, e).Some? && !IsRekey(e) && !Direct(t, e, user) && user in t.digests
    ensures UserLeft(t, Write(r, t, e).value, user)
  {
  }

  /** A write that is none of these leaves the user's links, names, digest and keys as they are, but for
      principals that go. */
  lemma OthersLeaveUser(r: Realm, t: Tables, e: Event, user: string)
    requires Inv(t) && Write(r, t, e).Some? && !Direct(t, e, user) && !Sets(t, e, user) && user in t.digests
    ensures UserLeft(t, Write(r, t, e).value, user)
    ensures forall id | id in Linked(t, user) :: !Rekeys(r, t, e, id)
  {
    if IsRekey(e) {
      RekeyLeavesUser(r, t, e, user);
    } else {
      OtherLeavesUser(r, t, e, user);
    }
  }

  lemma StepInStep(r: Realm, t: Tables, e: Event, user: string)
    requires Inv(t) && InStep(r, t, user) && !Direct(t, e, user)
    ensures InStep(r, Step(r, t, e), user)
  {
    if Write(r, t, e).Some? {
      if Sets(t, e, user) {
        SetsInStep(r, t, e, user);
      } else {
        var password, etypes :| FromOne(r, t, user, password, etypes);
        var t' := Write(r, t, e).value;
        OthersLeaveUser(r, t, e, user);
        forall id | id in Linked(t', user) ensures SameKeys(t, t', id) { StepAges(r, t, e, id); }
        FrameKeepsFromOne(r, t, t', user, password, etypes);
      }
    }
  }

  /** No write of the run goes behind the user's back. */
  predicate NoneDirect(r: Realm, t: Tables, es: seq<Event>, user: string) {
    es == [] || (NoneDirect(r, t, es[..|es| - 1], user) && !Direct(Run(r, t, es[..|es| - 1]), es[|es| - 1], user))
  }

  /** Once set, a user's digest and keys stay in step through every run of password changes by any route
      and of writes to others: only a write to one of its credentials alone can part them. */
  lemma {:induction false} StaysInStep(r: Realm, t: Tables, es: seq<Event>, user: string)
    requires Inv(t) && InStep(r, t, user) && NoneDirect(r, t, es, user)
    ensures InStep(r, Run(r, t, es), user)
    decreases |es|
  {
    if es != [] {
      StaysInStep(r, t, es[..|es| - 1], user);
      RunKeepsInv(r, t, es[..|es| - 1]);
      StepInStep(r, Run(r, t, es[..|es| - 1]), es[|es| - 1], user);
    }
  }

  /** A password change over kpasswd parts no user's credentials, and puts the requester's keys under
      the new password even where no user is behind them. */
  lemma KpasswdParts(r: Realm, t: Tables, name: string, password: seq<byte>, now: nat, user: string)
    requires Inv(t) && Kpasswd(r, t, name, password, now).Some?
    ensures InStep(r, t, user) ==> InStep(r, Kpasswd(r, t, name, password, now).value, user)
    ensures var id := Find(t, name).value;
            var t' := Kpasswd(r, t, name, password, now).value;
            && id in t'.principals
            && Derived(r, password, t'.principals[id].name, r.etypes) == Some(Load(t', id, 0))
  {
    var e := PasswordRequest(name, password, now);
    if InStep(r, t, user) { StepInStep(r, t, e, user); }
    var id := Find(t, name).value;
    assert Sound(t, id);
    var owner := t.principals[id].user;
    if owner.Some? {
      SetsInStep(r, t, e, owner.value);
      RekeyedFromOne(r, t, owner.value, password, r.etypes, now, 0);
    }
  }

  // ----- Creating and removing -----

  /** A principal is created exactly under a row number, a name and aliases that are free, for a user that
      exists if it has one, with some keys of different enctypes. */
  lemma CreateIff(t: Tables, id: Id, name: string, aliases: set<string>, user: Option<string>, kvno: int, keys: seq<Key>, now: nat)
    ensures Create(t, id, name, aliases, user, kvno, keys, now).Some? <==>
            && id !in t.principals && Find(t, name).None? && (forall a | a in aliases :: Find(t, a).None? && a != name)
            && (user.Some? ==> user.value in t.digests)
            && keys != [] && (forall i, j | 0 <= i < j < |keys| :: keys[i].etype != keys[j].etype)
  {
  }

  /** Then its name and aliases lead to it, and every other name leads where it did. */
  lemma CreateNames(t: Tables, id: Id, name: string, aliases: set<string>, user: Option<string>, kvno: int, keys: seq<Key>, now: nat, n: string)
    requires Create(t, id, name, aliases, user, kvno, keys, now).Some?
    ensures var t' := Create(t, id, name, aliases, user, kvno, keys, now).value;
            Find(t', n) == if n == name || n in aliases then Some(id) else Find(t, n)
  {
  }

  /** And its keys are its current version, the first unless told otherwise; nobody else changes. */
  lemma CreateDoes(t: Tables, id: Id, name: string, aliases: set<string>, user: Option<string>, kvno: int, keys: seq<Key>, now: nat)
    requires Create(t, id, name, aliases, user, kvno, keys, now).Some?
    ensures var t' := Create(t, id, name, aliases, user, kvno, keys, now).value;
            && id in t'.principals && t'.principals[id].kvno == (if kvno <= 0 then 1 else kvno)
            && t'.principals[id].name == name && t'.principals[id].user == user
            && Load(t', id, 0) == keys && t'.digests == t.digests
            && (forall i | i in t.principals :: i in t'.principals && t'.principals[i] == t.principals[i])
            && (forall v | v in t.keys && v.id in t.principals :: v in t'.keys && t'.keys[v] == t.keys[v])
  {
  }

  lemma WithoutNames(t: Tables, ids: set<Id>, n: string)
    requires Inv(t)
    ensures var t' := Without(t, ids);
            && (Find(t', n).Some? ==> Find(t', n).value !in ids)
            && (Find(t, n).Some? && Find(t, n).value !in ids ==> Find(t', n) == Find(t, n))
  {
  }

  /** Principals that go leave no key and no name behind, and nobody else changes. */
  lemma WithoutDoes(t: Tables, ids: set<Id>)
    requires Inv(t)
    ensures var t' := Without(t, ids);
            && (forall v | v in t'.keys :: v.id !in ids)
            && (forall i | i in t.principals ::
                  if i in ids then i !in t'.principals
                  else i in t'.principals && t'.principals[i] == t.principals[i] && SameKeys(t, t', i))
  {
  }

  /** What the other writes do: a new user has no digest, a cleared one neither, and no key changes; a user that
      goes takes its principals along; a principal goes by its own name; a link changes whose it is. */
  lemma OtherWrites(r: Realm, t: Tables, e: Event)
    requires Inv(t)
    ensures e.AddUser? ==>
              Write(r, t, e) == if e.user in t.digests then None else Some(t.(digests := t.digests[e.user := NoDigest]))
    ensures e.ClearPassword? && e.user in t.digests ==>
              Write(r, t, e).Some? && Write(r, t, e).value.digests[e.user] == NoDigest
              && Write(r, t, e).value.keys == t.keys && Write(r, t, e).value.principals == t.principals
    ensures e.DropUser? && e.user in t.digests ==>
              Write(r, t, e).Some? && e.user !in Write(r, t, e).value.digests
              && forall id | id in Write(r, t, e).value.principals :: t.principals[id].user != Some(e.user)
    ensures e.DropPrincipal? ==>
              (Write(r, t, e).Some? <==> e.name in t.names)
              && (Write(r, t, e).Some? ==> Write(r, t, e).value == Without(t, {t.names[e.name]}))
    ensures e.LinkTo? && Write(r, t, e).Some? ==>
              Write(r, t, e).value.principals[Find(t, e.name).value].user == e.owner && Write(r, t, e).value.keys == t.keys
  {
  }

  // ----- Names over runs -----

  predicate SameNames(t: Tables, t': Tables) {
    t'.names == t.names && t'.aliases == t.aliases
  }

  lemma PrincipalPasswordSameNames(r: Realm, t: Tables, name: string, password: seq<byte>, etypes: seq<int>, now: nat)
    ensures var w := SetPrincipalPassword(r, t, name, password, etypes, now); w.Some? ==> SameNames(t, w.value)
  {
  }

  lemma UserPasswordSameNames(r: Realm, t: Tables, user: string, password: seq<byte>, etypes: seq<int>, now: nat, expires: nat)
    ensures var w := SetUserPassword(r, t, user, password, etypes, now, expires); w.Some? ==> SameNames(t, w.value)
  {
  }

  lemma KpasswdSameNames(r: Realm, t: Tables, name: string, password: seq<byte>, now: nat)
    ensures var w := Kpasswd(r, t, name, password, now); w.Some? ==> SameNames(t, w.value)
  {
    if Kpasswd(r, t, name, password, now).Some? {
      var user := t.principals[Find(t, name).value].user;
      if user.Some? {
        UserPasswordSameNames(r, t, user.value, password, r.etypes, now, 0);
      } else {
        PrincipalPasswordSameNames(r, t, name, password, r.etypes, now);
      }
    }
  }

  /** Only creations and removals touch the names. */
  lemma TablesOfNames(r: Realm, t: Tables, e: Event)
    requires Write(r, t, e).Some? && !e.AddPrincipal? && !e.DropUser? && !e.DropPrincipal?
    ensures SameNames(t, Write(r, t, e).value)
  {
    match e
    case UserPassword(user, password, etypes, now, expires) => UserPasswordSameNames(r, t, user, password, etypes, now, expires);
    case PrincipalPassword(name, password, etypes, now) => PrincipalPasswordSameNames(r, t, name, password, etypes, now);
    case PasswordRequest(name, password, now) => KpasswdSameNames(r, t, name, password, now);
    case _ =>
  }

  lemma DropKeepsNames(r: Realm, t: Tables, e: Event, name: string)
    requires Inv(t) && Write(r, t, e).Some? && (e.DropUser? || e.DropPrincipal?)
    requires Find(t, name).Some? && Find(t, name).value in Write(r, t, e).value.principals
    ensures Find(Write(r, t, e).value, name) == Find(t, name)
  {
    var ids := if e.DropUser? then Linked(t, e.user) else {t.names[e.name]};
    WithoutNames(t, ids, name);
    assert SameNames(Without(t, ids), Write(r, t, e).value);
  }

  lemma StepKeepsNames(r: Realm, t: Tables, e: Event, name: string)
    requires Inv(t) && Find(t, name).Some? && Find(t, name).value in Step(r, t, e).principals
    ensures Find(Step(r, t, e), name) == Find(t, name)
  {
    var w := Write(r, t, e);
    if w.Some? {
      match e
      case AddPrincipal(id, n, aliases, owner, kvno, keys, now) => CreateNames(t, id, n, aliases, owner, kvno, keys, now, name);
      case DropUser(_) => DropKeepsNames(r, t, e, name);
      case DropPrincipal(_) => DropKeepsNames(r, t, e, name);
      case _ => TablesOfNames(r, t, e);
    }
  }

  /** A name keeps leading to the same principal for as long as that is there. */
  lemma {:induction false} RunKeepsNames(r: Realm, t: Tables, es: seq<Event>, name: string)
    requires Inv(t) && Find(t, name).Some? && Stays(r, t, es, Find(t, name).value)
    ensures Find(Run(r, t, es), name) == Find(t, name)
    decreases |es|
  {
    if es != [] {
      RunKeepsNames(r, t, es[..|es| - 1], name);
      RunKeepsInv(r, t, es[..|es| - 1]);
      StepKeepsNames(r, Run(r, t, es[..|es| - 1]), es[|es| - 1], name);
    }
  }

  // ----- When a password is taken -----

  /** A password change over kpasswd succeeds exactly when the password is neither too short nor too long, the
      subject is known, and every principal whose keys it is to make takes them: all of the user's, or the
      subject alone where no user is behind it. */
  lemma KpasswdIff(r: Realm, t: Tables, name: string, password: seq<byte>, now: nat)
    requires Inv(t)
    ensures Kpasswd(r, t, name, password, now).Some? <==>
            && r.minLength <= |password| <= 72 && Find(t, name).Some?
            && var user := t.principals[Find(t, name).value].user;
               if user.Some? then forall id | id in t.principals && t.principals[id].user == user :: Takes(r, t, id, password, r.etypes)
               else Takes(r, t, Find(t, name).value, password, r.etypes)
  {
    if Find(t, name).Some? {
      var id := Find(t, name).value;
      assert Sound(t, id);
      var user := t.principals[id].user;
      if user.Some? {
        assert AllTake(r, t, Linked(t, user.value), password, r.etypes) <==>
               forall i | i in t.principals && t.principals[i].user == user :: Takes(r, t, i, password, r.etypes);
      }
    }
  }
}
