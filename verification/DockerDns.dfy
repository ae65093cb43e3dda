/** Container registrations in the zone (internal/dockerdns/dockerdns.go and the record table of
    internal/store/dns.go): each pass brings the registered records into line with the containers. */
module DockerDns {

  import opened DnsNames

  /** What the record table keeps unique. */
  datatype Slot = Slot(name: string, kind: string, value: string)

  /** The rest of a record; an empty origin is an administrator's. */
  datatype Row = Row(ttl: int, origin: string)

  datatype Rec = Rec(slot: Slot, row: Row)

  datatype Zone = Zone(rows: map<Slot, Row>, serial: int)

  /** Origins the discovery lists as its own. */
  predicate Docker(origin: string) {
    "docker:" <= origin
  }

  function Identity(rec: Rec): string {
    rec.row.origin + "|" + rec.slot.name + "|" + rec.slot.value
  }

  predicate NoBar(s: string) {
    forall i | 0 <= i < |s| :: s[i] != '|'
  }

  predicate IsRegistration(rec: Rec) {
    Docker(rec.row.origin) && rec.slot.kind == "A" && NoBar(rec.row.origin) && NoBar(rec.slot.value)
  }

  /** What the containers call for, keyed by identity. */
  predicate IsWant(want: map<string, Rec>) {
    forall key | key in want :: key == Identity(want[key]) && IsRegistration(want[key])
  }

  function At(z: Zone, slot: Slot): Rec
    requires slot in z.rows
  {
    Rec(slot, z.rows[slot])
  }

  predicate Registered(z: Zone, slot: Slot) {
    slot in z.rows && Docker(z.rows[slot].origin)
  }

  /** Every row the discovery lists was registered by it. */
  ghost predicate Sound(z: Zone) {
    forall slot | Registered(z, slot) :: IsRegistration(At(z, slot))
  }

  predicate Administered(z: Zone, name: string) {
    exists slot | slot in z.rows :: slot.name == name && z.rows[slot].origin == ""
  }

  /** A registration no container stands behind. */
  predicate Gone(want: map<string, Rec>, z: Zone, slot: Slot) {
    Registered(z, slot) && Identity(At(z, slot)) !in want
  }

  ghost predicate IsHeld(z: Zone, key: string) {
    exists slot | Registered(z, slot) :: Identity(At(z, slot)) == key
  }

  /** The serial after a change to the zone: the time, or one more where the time is no later. */
  function Bumped(serial: int, now: int): int {
    if serial + 1 > now then serial + 1 else now
  }

  /** It is the least number that is past the old serial and no earlier than the time. */
  lemma BumpedIsLeast(serial: int, now: int, other: int)
    ensures Bumped(serial, now) > serial && Bumped(serial, now) >= now
    ensures other > serial && other >= now ==> other >= Bumped(serial, now)
  {
  }

  // ----- What a pass does, whatever order it goes in -----

  /** A record as the table keeps it: under its name normalized once more. */
  function Kept(rec: Rec): Rec {
    rec.(slot := rec.slot.(name := Normalize(rec.slot.name)))
  }

  /** Every wanted name is one the table keeps as it is. */
  predicate StoredAsAsked(want: map<string, Rec>) {
    forall key | key in want :: Kept(want[key]) == want[key]
  }

  /** A wanted record that a pass tries to create: not held, at a name no administrator holds. */
  ghost predicate Due(want: map<string, Rec>, z: Zone, key: string) {
    key in want && !IsHeld(z, key) && !Administered(z, Kept(want[key]).slot.name)
  }

  /** A record that a pass may add: due, and its slot free. */
  ghost predicate Addable(want: map<string, Rec>, z: Zone, rec: Rec) {
    rec.slot !in z.rows && exists key :: Due(want, z, key) && Kept(want[key]) == rec
  }

  predicate Removes(want: map<string, Rec>, z: Zone, z': Zone) {
    forall slot | slot in z.rows :: if Gone(want, z, slot) then slot !in z'.rows else slot in z'.rows && z'.rows[slot] == z.rows[slot]
  }

  ghost predicate Adds(want: map<string, Rec>, z: Zone, z': Zone) {
    && (forall slot | slot in z'.rows && slot !in z.rows :: Addable(want, z, At(z', slot)))
    && (forall key | Due(want, z, key) :: Kept(want[key]).slot in z.rows || Kept(want[key]).slot in z'.rows)
  }

  /** The serial moves exactly when the contents do. */
  predicate Counts(z: Zone, z': Zone) {
    if z'.rows == z.rows then z'.serial == z.serial else z'.serial > z.serial
  }

  ghost predicate Pass(want: map<string, Rec>, z: Zone, z': Zone) {
    Removes(want, z, z') && Adds(want, z, z') && Counts(z, z')
  }

  /** What an added record is: a wanted one as the table keeps it. */
  lemma AddableFacts(want: map<string, Rec>, z: Zone, rec: Rec)
    requires IsWant(want) && Addable(want, z, rec)
    ensures IsRegistration(rec) && !Administered(z, rec.slot.name)
    ensures StoredAsAsked(want) ==> Identity(rec) in want && want[Identity(rec)] == rec
  {
    var key :| Due(want, z, key) && Kept(want[key]) == rec;
    assert StoredAsAsked(want) ==> Kept(want[key]) == want[key];
  }

  // ----- Identities -----

  lemma FrontOf(a: string, b: string, a': string, b': string)
    requires a + "|" + b == a' + "|" + b' && NoBar(a) && NoBar(a')
    ensures a == a' && b == b'
  {
    var s := a + "|" + b;
    assert s[|a|] == '|' && s[|a'|] == '|';
    assert forall i | 0 <= i < |a| :: s[i] == a[i];
    assert forall i | 0 <= i < |a'| :: s[i] == a'[i];
    assert |a| == |a'|;
    assert a == s[..|a|] && b == s[|a| + 1..];
    assert a' == s[..|a'|] && b' == s[|a'| + 1..];
  }

  lemma BackOf(a: string, b: string, a': string, b': string)
    requires a + "|" + b == a' + "|" + b' && NoBar(b) && NoBar(b')
    ensures a == a' && b == b'
  {
    var s := a + "|" + b;
    assert s[|a|] == '|' && s[|a'|] == '|';
    assert forall i | |a| < i < |s| :: s[i] == b[i - |a| - 1];
    assert forall i | |a'| < i < |s| :: s[i] == b'[i - |a'| - 1];
    assert |a| == |a'|;
    assert a == s[..|a|] && b == s[|a| + 1..];
    assert a' == s[..|a'|] && b' == s[|a'| + 1..];
  }

  /** The text that identifies a registration identifies nothing else, although a name may hold the
      separator. */
  lemma IdentityIsUnique(a: Rec, b: Rec)
    requires IsRegistration(a) && IsRegistration(b) && Identity(a) == Identity(b)
    ensures a.slot == b.slot && a.row.origin == b.row.origin
  {
    var x, y := a.slot.name + "|" + a.slot.value, b.slot.name + "|" + b.slot.value;
    assert Identity(a) == a.row.origin + "|" + x && Identity(b) == b.row.origin + "|" + y;
    FrontOf(a.row.origin, x, b.row.origin, y);
    BackOf(a.slot.name, a.slot.value, b.slot.name, b.slot.value);
  }

  // ----- What every pass keeps -----

  /** A pass keeps the administrators' records, adds none, and adds no registration at their names. */
  lemma AdministratorsAreLeft(want: map<string, Rec>, z: Zone, z': Zone)
    requires IsWant(want) && Pass(want, z, z')
    ensures forall slot: Slot, row: Row | !Docker(row.origin) ::
              (slot in z.rows && z.rows[slot] == row) <==> (slot in z'.rows && z'.rows[slot] == row)
    ensures forall name :: Administered(z', name) <==> Administered(z, name)
    ensures forall slot | slot in z'.rows && slot !in z.rows :: Registered(z', slot) && !Administered(z', slot.name)
  {
    forall slot | slot in z'.rows && slot !in z.rows ensures Registered(z', slot) && !Administered(z, slot.name) {
      AddableFacts(want, z, At(z', slot));
    }
    SameAdministered(want, z, z');
  }

  lemma SameAdministered(want: map<string, Rec>, z: Zone, z': Zone)
    requires IsWant(want) && Pass(want, z, z')
    ensures forall name :: Administered(z', name) <==> Administered(z, name)
  {
    forall name ensures Administered(z', name) <==> Administered(z, name) {
      if Administered(z, name) {
        var slot :| slot in z.rows && slot.name == name && z.rows[slot].origin == "";
        assert slot in z'.rows && z'.rows[slot].origin == "";
      }
      if Administered(z', name) {
        var slot :| slot in z'.rows && slot.name == name && z'.rows[slot].origin == "";
        if slot !in z.rows { AddableFacts(want, z, At(z', slot)); }
      }
    }
  }

  lemma PassKeepsSound(want: map<string, Rec>, z: Zone, z': Zone)
    requires IsWant(want) && Sound(z) && Pass(want, z, z')
    ensures Sound(z')
  {
    forall slot | Registered(z', slot) ensures IsRegistration(At(z', slot)) {
      if slot !in z.rows { AddableFacts(want, z, At(z', slot)); } else { assert Registered(z, slot); }
    }
  }

  /** After a pass every registration left is one the containers call for, or one just added as the
      table keeps it; where the table keeps names as asked, the two are the same. */
  lemma OnlyWantedAreLeft(want: map<string, Rec>, z: Zone, z': Zone)
    requires IsWant(want) && Pass(want, z, z')
    ensures forall slot | Registered(z', slot) ::
              Identity(At(z', slot)) in want || (slot !in z.rows && Addable(want, z, At(z', slot)))
    ensures StoredAsAsked(want) ==> forall slot | Registered(z', slot) :: Identity(At(z', slot)) in want && !Gone(want, z', slot)
  {
    forall slot | Registered(z', slot)
      ensures Identity(At(z', slot)) in want || (slot !in z.rows && Addable(want, z, At(z', slot)))
      ensures StoredAsAsked(want) ==> Identity(At(z', slot)) in want
    {
      if slot !in z.rows { AddableFacts(want, z, At(z', slot)); } else { assert !Gone(want, z, slot); }
    }
  }

  /** A registration that is wanted and held stays held. */
  lemma HeldStaysHeld(want: map<string, Rec>, z: Zone, z': Zone, key: string)
    requires Pass(want, z, z') && key in want && IsHeld(z, key)
    ensures IsHeld(z', key)
  {
    var slot :| Registered(z, slot) && Identity(At(z, slot)) == key;
    assert Registered(z', slot) && At(z', slot) == At(z, slot);
  }

  // ----- Fixpoints -----

  /** Nothing to remove and nothing to add. */
  ghost predicate Settled(want: map<string, Rec>, z: Zone) {
    && (forall slot | slot in z.rows :: !Gone(want, z, slot))
    && (forall key | Due(want, z, key) :: Kept(want[key]).slot in z.rows)
  }

  lemma SettledStays(want: map<string, Rec>, z: Zone, z': Zone)
    requires Settled(want, z) && Pass(want, z, z')
    ensures z' == z
  {
    forall slot | slot in z'.rows ensures slot in z.rows {
      assert slot in z.rows || Addable(want, z, At(z', slot));
    }
    assert z'.rows == z.rows;
  }

  /** A wanted record waits for the next pass when a registration that has just gone is in its slot. */
  ghost predicate Waits(want: map<string, Rec>, z: Zone, key: string) {
    Due(want, z, key) && Gone(want, z, Kept(want[key]).slot)
  }

  lemma WaitingIsDue(want: map<string, Rec>, z: Zone, z': Zone, key: string)
    requires IsWant(want) && StoredAsAsked(want) && Pass(want, z, z') && Waits(want, z, key)
    ensures Due(want, z', key) && Kept(want[key]).slot !in z'.rows
  {
    SameAdministered(want, z, z');
    forall slot | Registered(z', slot) ensures Identity(At(z', slot)) != key {
      if slot in z.rows {
        assert Registered(z, slot) && At(z, slot) == At(z', slot);
      } else {
        AddableFacts(want, z, At(z', slot));
      }
    }
  }

  /** One pass settles the zone exactly when no wanted record has to wait. */
  lemma SettledIffNoneWaits(want: map<string, Rec>, z: Zone, z': Zone)
    requires IsWant(want) && StoredAsAsked(want) && Pass(want, z, z')
    ensures Settled(want, z') <==> forall key | key in want :: !Waits(want, z, key)
  {
    SameAdministered(want, z, z');
    OnlyWantedAreLeft(want, z, z');
    forall key | Waits(want, z, key) ensures !Settled(want, z') { WaitingIsDue(want, z, z', key); }
    forall key | Due(want, z', key) && !Waits(want, z, key) ensures Kept(want[key]).slot in z'.rows {
      if IsHeld(z, key) { HeldStaysHeld(want, z, z', key); }
      assert Due(want, z, key);
    }
  }

  /** Where the table keeps names as asked, two passes settle every zone: in whatever order they went, a
      third changes nothing, the serial included. */
  lemma TwoPassesSettle(want: map<string, Rec>, z0: Zone, z1: Zone, z2: Zone, z3: Zone)
    requires IsWant(want) && StoredAsAsked(want)
    requires Pass(want, z0, z1) && Pass(want, z1, z2) && Pass(want, z2, z3)
    ensures Settled(want, z2) && z3 == z2
  {
    OnlyWantedAreLeft(want, z0, z1);
    SettledIffNoneWaits(want, z1, z2);
    SettledStays(want, z2, z3);
  }

  /** A settled zone registers exactly what is wanted: every registration is wanted, and every wanted
      record is there unless an administrator has its name or another record its slot. */
  lemma SettledRegistersTheWanted(want: map<string, Rec>, z: Zone, rec: Rec)
    requires IsWant(want) && StoredAsAsked(want) && Settled(want, z) && IsRegistration(rec) && Identity(rec) in want
    ensures IsHeld(z, Identity(rec)) || Administered(z, rec.slot.name)
            || (rec.slot in z.rows && z.rows[rec.slot].origin != rec.row.origin)
  {
    var key := Identity(rec);
    IdentityIsUnique(want[key], rec);
    assert Kept(want[key]) == want[key];
    if !Administered(z, rec.slot.name) {
      assert Due(want, z, key) || IsHeld(z, key);
      assert Registered(z, rec.slot) && z.rows[rec.slot].origin == rec.row.origin ==> Identity(At(z, rec.slot)) == key;
    }
  }

  // ----- Zones that never settle -----

  /** No wanted record is the identity of what the table keeps of another, or of itself. */
  predicate Displaced(want: map<string, Rec>) {
    forall key | key in want :: Identity(Kept(want[key])) !in want
  }

  ghost predicate NoneHeld(want: map<string, Rec>, z: Zone) {
    forall key | key in want :: !IsHeld(z, key)
  }

  /** Nothing but a registration stands in a wanted record's way. */
  predicate Free(want: map<string, Rec>, z: Zone, key: string) {
    && key in want && !Administered(z, Kept(want[key]).slot.name)
    && (Kept(want[key]).slot in z.rows ==> Registered(z, Kept(want[key]).slot))
  }

  lemma AddedIsNotWanted(want: map<string, Rec>, z: Zone, rec: Rec)
    requires Displaced(want) && Addable(want, z, rec)
    ensures Identity(rec) !in want
  {
    var key :| Due(want, z, key) && Kept(want[key]) == rec;
  }

  lemma RegisteredIsGone(want: map<string, Rec>, z: Zone, slot: Slot)
    requires NoneHeld(want, z) && Registered(z, slot)
    ensures Gone(want, z, slot)
  {
    if Identity(At(z, slot)) in want { assert IsHeld(z, Identity(At(z, slot))); }
  }

  /** Where the table keeps every wanted name otherwise, a pass registers and the next one removes: each
      of them changes the zone. */
  lemma PassMoves(want: map<string, Rec>, z: Zone, z': Zone, key: string)
    requires IsWant(want) && Displaced(want) && Restless(want, z, key) && Pass(want, z, z')
    ensures z' != z && Restless(want, z', key)
  {
    var slot := Kept(want[key]).slot;
    assert Due(want, z, key);
    if slot in z.rows { RegisteredIsGone(want, z, slot); }
    AdministratorsAreLeft(want, z, z');
    forall other | Registered(z', other) ensures Identity(At(z', other)) !in want {
      if other in z.rows {
        assert Registered(z, other);
        RegisteredIsGone(want, z, other);
      } else {
        AddedIsNotWanted(want, z, At(z', other));
      }
    }
  }

  /** A zone that the next pass changes. */
  ghost predicate Restless(want: map<string, Rec>, z: Zone, key: string) {
    NoneHeld(want, z) && Free(want, z, key)
  }

  ghost predicate Passes(want: map<string, Rec>, zs: seq<Zone>) {
    forall i | 0 <= i < |zs| - 1 :: Pass(want, zs[i], zs[i + 1])
  }

  /** And so in every run: no two zones in a row are the same. */
  lemma {:induction false} NeverSettles(want: map<string, Rec>, zs: seq<Zone>, key: string, n: nat)
    requires IsWant(want) && Displaced(want) && Passes(want, zs) && n < |zs|
    requires Restless(want, zs[0], key)
    ensures Restless(want, zs[n], key)
    ensures forall i | 0 <= i < n :: zs[i + 1] != zs[i]
    decreases n
  {
    if n > 0 {
      NeverSettles(want, zs, key, n - 1);
      var i := n - 1;
      assert Pass(want, zs[i], zs[i + 1]);
      PassMoves(want, zs[i], zs[i + 1], key);
    }
  }

  // ----- Sharing a name with an administrator -----

  /** A wanted registration at a name an administrator holds: the pass neither makes nor removes it, so a
      record an administrator adds later shares the name for as long as the container runs. */
  lemma SharedNameIsLeft(want: map<string, Rec>, z: Zone, z': Zone, key: string)
    requires IsWant(want) && StoredAsAsked(want) && Sound(z) && Pass(want, z, z') && key in want
    ensures Administered(z, want[key].slot.name) ==> (IsHeld(z', key) <==> IsHeld(z, key))
  {
    if IsHeld(z, key) { HeldStaysHeld(want, z, z', key); }
    if IsHeld(z', key) && Administered(z, want[key].slot.name) {
      PassKeepsSound(want, z, z');
      AdministratorsAreLeft(want, z, z');
      var slot :| Registered(z', slot) && Identity(At(z', slot)) == key;
      IdentityIsUnique(At(z', slot), want[key]);
      assert Registered(z, slot) && At(z', slot) == At(z, slot);
    }
  }

  predicate Shares(z: Zone, slot: Slot) {
    Registered(z, slot) && Administered(z, slot.name)
  }

  /** A pass leaves no registration at an administrator's name exactly when none that is still wanted was
      there before. */
  lemma SharesIff(want: map<string, Rec>, z: Zone, z': Zone)
    requires IsWant(want) && Pass(want, z, z')
    ensures (exists slot :: Shares(z', slot)) <==> exists slot :: Shares(z, slot) && !Gone(want, z, slot)
  {
    AdministratorsAreLeft(want, z, z');
    if slot :| Shares(z', slot) {
      assert slot in z.rows;
      assert Shares(z, slot) && !Gone(want, z, slot);
    }
    if slot :| Shares(z, slot) && !Gone(want, z, slot) {
      assert slot in z'.rows;
      assert Shares(z', slot);
    }
  }

  /** The zone with a container's record, and then the administrator's at the same name. */
  const LATER := Zone(map[Slot("web", "A", "10.0.0.2") := Row(60, "docker:1"), Slot("web", "A", "10.9.9.9") := Row(60, "")], 1)

  lemma LaterRecordShares()
    ensures var rec := Rec(Slot("web", "A", "10.0.0.2"), Row(60, "docker:1"));
            var want := map[Identity(rec) := rec];
            IsWant(want) && Sound(LATER) && Pass(want, LATER, LATER) && Shares(LATER, rec.slot)
  {
    var rec := Rec(Slot("web", "A", "10.0.0.2"), Row(60, "docker:1"));
    var want := map[Identity(rec) := rec];
    var admin := Slot("web", "A", "10.9.9.9");
    assert admin in LATER.rows && LATER.rows[admin].origin == "";
    assert Administered(LATER, "web");
    assert !Docker("");
    assert At(LATER, rec.slot) == rec && Registered(LATER, rec.slot);
    assert IsHeld(LATER, Identity(rec));
    assert !Registered(LATER, admin);
  }
}
