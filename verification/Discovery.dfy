/** The reconciliation as the code runs it: what the listed containers call for, and the loops that
    create and delete (internal/dockerdns/dockerdns.go, internal/store/dns.go). */
module Discovery {

  import opened DnsNames
  import opened DockerDns

  // ----- What the containers call for -----

  datatype Option<T> = None | Some(value: T)

  datatype Addr = Addr(is4: bool, bits: nat, text: string)

  datatype Container = Container(id: string, names: seq<string>, networks: map<string, string>)

  datatype Config = Config(
    zone: string, ttl: int,
    names: set<string>, prefixes: seq<Addr -> bool>,
    parse: string -> Option<Addr>, valid: Rec -> bool)

  predicate Selected(cfg: Config, network: string, addr: Addr) {
    network in cfg.names || exists i | 0 <= i < |cfg.prefixes| :: cfg.prefixes[i](addr)
  }

  function TrimSlash(s: string): string {
    if s != "" && s[0] == '/' then s[1..] else s
  }

  /** The record of one container on one of its networks. */
  function RecordOf(cfg: Config, c: Container, addr: Addr): Rec
    requires c.names != []
  {
    Rec(Slot(Fqdn(Normalize(TrimSlash(c.names[0])), cfg.zone), "A", addr.text), Row(cfg.ttl, "docker:" + c.id))
  }

  /** What one network of a container calls for, if anything. */
  function Called(cfg: Config, c: Container, network: string): Option<Rec> {
    if c.names == [] || network !in c.networks then None
    else
      var addr := cfg.parse(c.networks[network]);
      if addr.None? || !addr.value.is4 || !Selected(cfg, network, addr.value) then None
      else if !cfg.valid(RecordOf(cfg, c, addr.value)) then None
      else Some(RecordOf(cfg, c, addr.value))
  }

  /** A network of a container calls for a record exactly when the container has a name, its address there is
      IPv4 and lies on a configured network or in a configured prefix, and the record is valid; it is an
      address record of the container's name, in lower case and without its slash, under the zone. */
  lemma CalledIff(cfg: Config, c: Container, network: string, rec: Rec)
    ensures Called(cfg, c, network) == Some(rec) <==>
            && c.names != [] && network in c.networks && cfg.parse(c.networks[network]).Some?
            && var a := cfg.parse(c.networks[network]).value;
            && a.is4 && (network in cfg.names || exists i | 0 <= i < |cfg.prefixes| :: cfg.prefixes[i](a))
            && cfg.valid(rec)
            && rec.slot.name == Normalize(if "/" <= c.names[0] then c.names[0][1..] else c.names[0]) + "." + cfg.zone
            && rec.slot.kind == "A" && rec.slot.value == a.text
            && rec.row.ttl == cfg.ttl && rec.row.origin == "docker:" + c.id
  {
    if c.names != [] {
      assert "/" <= c.names[0] <==> c.names[0] != "" && c.names[0][0] == '/';
    }
  }

  ghost predicate Calls(cfg: Config, containers: seq<Container>, rec: Rec) {
    exists i, network :: 0 <= i < |containers| && Called(cfg, containers[i], network) == Some(rec)
  }

  /** The zone was normalized once, container ids and addresses hold no separator, and a record without a
      name or a lifetime is not valid. */
  ghost predicate Plain(cfg: Config, containers: seq<Container>) {
    && Tidy(cfg.zone)
    && (forall i | 0 <= i < |containers| :: NoBar(containers[i].id))
    && (forall s :: cfg.parse(s).Some? ==> NoBar(cfg.parse(s).value.text) && cfg.parse(s).value.text != "")
    && (forall rec :: cfg.valid(rec) ==> rec.row.ttl > 0 && Normalize(rec.slot.name) != "")
  }

  lemma CalledIsRegistration(cfg: Config, c: Container, network: string)
    requires NoBar(c.id) && (forall s :: cfg.parse(s).Some? ==> NoBar(cfg.parse(s).value.text))
    ensures var rec := Called(cfg, c, network);
            rec.Some? ==> IsRegistration(rec.value) && rec.value.row.ttl == cfg.ttl
  {
    var rec := Called(cfg, c, network);
    if rec.Some? {
      var origin := rec.value.row.origin;
      assert forall i | 0 <= i < |origin| :: origin[i] == if i < 7 then "docker:"[i] else c.id[i - 7];
    }
  }

  /** Well-formed, and every record with the configured lifetime. */
  predicate IsWantOf(cfg: Config, want: map<string, Rec>) {
    IsWant(want) && forall key | key in want :: want[key].row.ttl == cfg.ttl
  }

  ghost predicate Covers(cfg: Config, c: Container, want: map<string, Rec>) {
    forall network :: Called(cfg, c, network).Some? ==> Has(want, Called(cfg, c, network).value)
  }

  predicate Has(want: map<string, Rec>, rec: Rec) {
    Identity(rec) in want && want[Identity(rec)] == rec
  }

  /** Exactly the records the containers call for, each under its identity. */
  ghost predicate IsDesired(cfg: Config, containers: seq<Container>, want: map<string, Rec>) {
    && IsWantOf(cfg, want)
    && (forall key | key in want :: Calls(cfg, containers, want[key]))
    && (forall i | 0 <= i < |containers| :: Covers(cfg, containers[i], want))
  }

  lemma PutKeeps(cfg: Config, want: map<string, Rec>, rec: Rec)
    requires IsWantOf(cfg, want) && IsRegistration(rec) && rec.row.ttl == cfg.ttl
    ensures var want' := want[Identity(rec) := rec];
            IsWantOf(cfg, want') && forall r: Rec | Has(want, r) :: Has(want', r)
  {
    forall r: Rec | Has(want, r) ensures Has(want[Identity(rec) := rec], r) {
      if Identity(r) == Identity(rec) { IdentityIsUnique(r, rec); }
    }
  }

  /** One container's networks, in any order. */
  method AddContainer(cfg: Config, c: Container, before: map<string, Rec>) returns (want: map<string, Rec>)
    requires NoBar(c.id) && (forall s :: cfg.parse(s).Some? ==> NoBar(cfg.parse(s).value.text))
    requires IsWantOf(cfg, before)
    ensures IsWantOf(cfg, want) && Covers(cfg, c, want)
    ensures forall r: Rec | Has(before, r) :: Has(want, r)
    ensures forall key | key in want && !(key in before && want[key] == before[key]) ::
              exists network :: Called(cfg, c, network) == Some(want[key])
  {
    want := before;
    if c.names == [] {
      return;
    }
    var todo := c.networks.Keys;
    while todo != {}
      invariant IsWantOf(cfg, want)
      invariant forall network :: Called(cfg, c, network).Some? && network !in todo ==> Has(want, Called(cfg, c, network).value)
      invariant forall r: Rec | Has(before, r) :: Has(want, r)
      invariant forall key | key in want && !(key in before && want[key] == before[key]) ::
                  exists network :: Called(cfg, c, network) == Some(want[key])
      decreases todo
    {
      var network :| network in todo;
      todo := todo - {network};
      var rec := Called(cfg, c, network);
      if rec.Some? {
        CalledIsRegistration(cfg, c, network);
        PutKeeps(cfg, want, rec.value);
        want := want[Identity(rec.value) := rec.value];
      }
    }
  }

  lemma StillCalled(cfg: Config, containers: seq<Container>, i: nat, before: map<string, Rec>, want: map<string, Rec>)
    requires i < |containers| && forall key | key in before :: Calls(cfg, containers, before[key])
    requires forall key | key in want && !(key in before && want[key] == before[key]) ::
               exists network :: Called(cfg, containers[i], network) == Some(want[key])
    ensures forall key | key in want :: Calls(cfg, containers, want[key])
  {
    forall key | key in want ensures Calls(cfg, containers, want[key]) {
      if key !in before || want[key] != before[key] {
        var network :| Called(cfg, containers[i], network) == Some(want[key]);
      }
    }
  }

  method Desired(cfg: Config, containers: seq<Container>) returns (want: map<string, Rec>)
    requires Plain(cfg, containers)
    ensures IsDesired(cfg, containers, want)
  {
    want := map[];
    for i := 0 to |containers|
      invariant IsWantOf(cfg, want)
      invariant forall key | key in want :: Calls(cfg, containers, want[key])
      invariant forall j | 0 <= j < i :: Covers(cfg, containers[j], want)
    {
      var before := want;
      want := AddContainer(cfg, containers[i], before);
      StillCalled(cfg, containers, i, before, want);
    }
  }

  lemma DesiredWithin(cfg: Config, containers: seq<Container>, a: map<string, Rec>, b: map<string, Rec>, key: string)
    requires IsDesired(cfg, containers, a) && IsDesired(cfg, containers, b) && key in a
    ensures key in b && b[key] == a[key]
  {
    var i, network :| 0 <= i < |containers| && Called(cfg, containers[i], network) == Some(a[key]);
    assert Covers(cfg, containers[i], b);
    assert Has(b, a[key]);
  }

  /** However the networks of the containers are ordered, a listing calls for one set of records. */
  lemma DesiredIsUnique(cfg: Config, containers: seq<Container>, a: map<string, Rec>, b: map<string, Rec>)
    requires IsDesired(cfg, containers, a) && IsDesired(cfg, containers, b)
    ensures a == b
  {
    forall key | key in a ensures key in b && b[key] == a[key] { DesiredWithin(cfg, containers, a, b, key); }
    forall key | key in b ensures key in a { DesiredWithin(cfg, containers, b, a, key); }
  }

  /** What one reconciliation may do to the zone, for all orders of its loops. */
  ghost predicate Reconciles(cfg: Config, containers: seq<Container>, z: Zone, z': Zone) {
    exists want :: IsDesired(cfg, containers, want) && Pass(want, z, z')
  }

  // ----- Which zones settle -----

  /** Docker lists a container once. */
  predicate ListedOnce(containers: seq<Container>) {
    forall i, j | 0 <= i < j < |containers| :: containers[i].id != containers[j].id
  }

  lemma CalledStored(cfg: Config, c: Container, network: string)
    requires Tidy(cfg.zone) && Called(cfg, c, network).Some?
    ensures Kept(Called(cfg, c, network).value) == Called(cfg, c, network).value <==> Usable(cfg.zone)
  {
    NormalizedIsTidy(TrimSlash(c.names[0]));
    StoredIffUsable(Normalize(TrimSlash(c.names[0])), cfg.zone);
  }

  /** Every desired name is kept as it is under a usable zone, and none under another. */
  lemma DesiredStored(cfg: Config, containers: seq<Container>, want: map<string, Rec>, key: string)
    requires Tidy(cfg.zone) && IsDesired(cfg, containers, want) && key in want
    ensures Kept(want[key]) == want[key] <==> Usable(cfg.zone)
  {
    var i, network :| 0 <= i < |containers| && Called(cfg, containers[i], network) == Some(want[key]);
    CalledStored(cfg, containers[i], network);
  }

  /** One container has one name. */
  lemma SameOrigin(cfg: Config, containers: seq<Container>, a: Rec, b: Rec)
    requires ListedOnce(containers) && Calls(cfg, containers, a) && Calls(cfg, containers, b) && a.row.origin == b.row.origin
    ensures a.slot.name == b.slot.name
  {
    var i, network :| 0 <= i < |containers| && Called(cfg, containers[i], network) == Some(a);
    var j, other :| 0 <= j < |containers| && Called(cfg, containers[j], other) == Some(b);
    assert a.row.origin[7..] == containers[i].id && b.row.origin[7..] == containers[j].id;
    assert i == j;
  }

  lemma DesiredIsDisplaced(cfg: Config, containers: seq<Container>, want: map<string, Rec>)
    requires Tidy(cfg.zone) && !Usable(cfg.zone) && ListedOnce(containers) && IsDesired(cfg, containers, want)
    ensures Displaced(want)
  {
    forall key | key in want ensures Identity(Kept(want[key])) !in want {
      var moved := Identity(Kept(want[key]));
      if moved in want {
        IdentityIsUnique(want[moved], Kept(want[key]));
        SameOrigin(cfg, containers, want[moved], want[key]);
        DesiredStored(cfg, containers, want, key);
      }
    }
  }

  /** Registrations stand under names the table keeps as they are. */
  ghost predicate NamesStored(z: Zone) {
    forall slot | Registered(z, slot) :: Normalize(slot.name) == slot.name
  }

  lemma NoneIsHeld(cfg: Config, containers: seq<Container>, want: map<string, Rec>, z: Zone)
    requires Tidy(cfg.zone) && !Usable(cfg.zone) && IsDesired(cfg, containers, want) && Sound(z) && NamesStored(z)
    ensures NoneHeld(want, z)
  {
    forall key | key in want ensures !IsHeld(z, key) {
      DesiredStored(cfg, containers, want, key);
      forall slot | Registered(z, slot) ensures Identity(At(z, slot)) != key {
        if Identity(At(z, slot)) == key { IdentityIsUnique(At(z, slot), want[key]); }
      }
    }
  }

  ghost predicate Reconciliations(cfg: Config, containers: seq<Container>, zs: seq<Zone>) {
    forall i | 0 <= i < |zs| - 1 :: Reconciles(cfg, containers, zs[i], zs[i + 1])
  }

  lemma SameWant(cfg: Config, containers: seq<Container>, zs: seq<Zone>, want: map<string, Rec>)
    requires Reconciliations(cfg, containers, zs) && IsDesired(cfg, containers, want)
    ensures Passes(want, zs)
  {
    forall i | 0 <= i < |zs| - 1 ensures Pass(want, zs[i], zs[i + 1]) {
      var other :| IsDesired(cfg, containers, other) && Pass(other, zs[i], zs[i + 1]);
      DesiredIsUnique(cfg, containers, want, other);
    }
  }

  /** With the listing unchanged and a usable zone, the third reconciliation and every later one change
      nothing. */
  lemma TwoReconciliationsSettle(cfg: Config, containers: seq<Container>, want: map<string, Rec>, zs: seq<Zone>, n: nat)
    requires Usable(cfg.zone) && IsDesired(cfg, containers, want) && Reconciliations(cfg, containers, zs) && 2 <= n < |zs| - 1
    ensures zs[n + 1] == zs[n]
  {
    SameWant(cfg, containers, zs, want);
    forall key | key in want ensures Kept(want[key]) == want[key] { DesiredStored(cfg, containers, want, key); }
    TwoPassesSettle(want, zs[n - 2], zs[n - 1], zs[n], zs[n + 1]);
  }

  /** From any zone whose registrations stand under names the table keeps, and with a wanted record that
      only a registration could keep out: after two reconciliations the next one changes nothing exactly
      when the zone is usable. Under any other zone every reconciliation changes it, without end. */
  lemma SettlesIffUsable(cfg: Config, containers: seq<Container>, want: map<string, Rec>, zs: seq<Zone>, n: nat, key: string)
    requires Tidy(cfg.zone) && ListedOnce(containers) && IsDesired(cfg, containers, want)
    requires Reconciliations(cfg, containers, zs) && 2 <= n < |zs| - 1
    requires Sound(zs[0]) && NamesStored(zs[0]) && Free(want, zs[0], key)
    ensures zs[n + 1] == zs[n] <==> Usable(cfg.zone)
    ensures !Usable(cfg.zone) ==> forall i | 0 <= i < |zs| - 1 :: zs[i + 1] != zs[i]
  {
    if Usable(cfg.zone) {
      TwoReconciliationsSettle(cfg, containers, want, zs, n);
    } else {
      SameWant(cfg, containers, zs, want);
      DesiredIsDisplaced(cfg, containers, want);
      NoneIsHeld(cfg, containers, want, zs[0]);
      NeverSettles(want, zs, key, |zs| - 1);
    }
  }

  // ----- A zone that alternates -----

  /** The record of a container "web" under an empty zone, and the zone with and without it. */
  const WEB := Rec(Slot(Fqdn("web", ""), "A", "10.0.0.2"), Row(60, "docker:1"))

  function Without(serial: int): Zone {
    Zone(map[], serial)
  }

  function With(serial: int): Zone {
    Zone(map[Kept(WEB).slot := WEB.row], serial)
  }

  /** Under an empty zone one pass registers the container and the next removes it, again and again. */
  lemma EmptyZoneAlternates(serial: int)
    ensures var want := map[Identity(WEB) := WEB];
            && IsWant(want) && Kept(WEB).slot.name == "web"
            && Pass(want, Without(serial), With(serial + 1)) && Pass(want, With(serial + 1), Without(serial + 2))
  {
    var want := map[Identity(WEB) := WEB];
    WebIsKept();
    var slot := Kept(WEB).slot;
    var z, z' := Without(serial), With(serial + 1);
    assert At(z', slot) == Kept(WEB) && slot in z'.rows && slot !in z.rows;
    assert Due(want, z, Identity(WEB));
    assert Addable(want, z, At(z', slot));
    if Identity(Kept(WEB)) == Identity(WEB) { IdentityIsUnique(Kept(WEB), WEB); }
    assert Gone(want, z', slot);
  }

  lemma WebIsKept()
    ensures Normalize(Fqdn("web", "")) == "web" && WEB.slot.name == "web."
    ensures IsRegistration(WEB) && IsRegistration(Kept(WEB))
  {
    assert Fqdn("web", "") == "web.";
    assert TrimLeft("web.") == "web." && TrimRight("web.") == "web.";
    assert TrimDot("web.") == "web";
    assert Lower("web") == "web";
  }

  /** A record the table takes, if its slot is free. */
  predicate Acceptable(rec: Rec) {
    Kept(rec).slot.name != "" && rec.slot.value != "" && rec.row.ttl > 0 && rec.row.origin != ""
  }

  /** Everything the containers call for is taken by the table. */
  lemma DesiredIsAcceptable(cfg: Config, containers: seq<Container>, want: map<string, Rec>)
    requires Plain(cfg, containers) && IsDesired(cfg, containers, want)
    ensures forall key | key in want :: Acceptable(want[key])
  {
    forall key | key in want ensures Acceptable(want[key]) {
      var i, network :| 0 <= i < |containers| && Called(cfg, containers[i], network) == Some(want[key]);
    }
  }

  // ----- The pass -----

  /** A pass under way: the wanted records outside `todo` have been seen, nothing was removed yet. */
  ghost predicate Creating(want: map<string, Rec>, z: Zone, z': Zone, todo: set<string>) {
    && (forall slot | slot in z.rows :: slot in z'.rows && z'.rows[slot] == z.rows[slot])
    && (forall slot | slot in z'.rows && slot !in z.rows :: Addable(want, z, At(z', slot)))
    && (forall key | Due(want, z, key) && key !in todo :: Kept(want[key]).slot in z'.rows)
    && Counts(z, z')
  }

  lemma CreatingSameNames(want: map<string, Rec>, z: Zone, z': Zone, todo: set<string>, name: string)
    requires IsWant(want) && Creating(want, z, z', todo)
    ensures Administered(z', name) <==> Administered(z, name)
  {
    if Administered(z, name) {
      var slot :| slot in z.rows && slot.name == name && z.rows[slot].origin == "";
      assert z'.rows[slot].origin == "";
    }
    if Administered(z', name) {
      var slot :| slot in z'.rows && slot.name == name && z'.rows[slot].origin == "";
      if slot !in z.rows { AddableFacts(want, z, At(z', slot)); }
    }
  }

  lemma CreatedOne(want: map<string, Rec>, z: Zone, z': Zone, todo: set<string>, key: string, now: int)
    requires Creating(want, z, z', todo) && Due(want, z, key) && Kept(want[key]).slot !in z'.rows
    ensures var rec := Kept(want[key]);
            Creating(want, z, Zone(z'.rows[rec.slot := rec.row], Bumped(z'.serial, now)), todo - {key})
  {
    var rec := Kept(want[key]);
    var next := Zone(z'.rows[rec.slot := rec.row], Bumped(z'.serial, now));
    forall slot | slot in next.rows && slot !in z.rows ensures Addable(want, z, At(next, slot)) {
      if slot != rec.slot { assert At(next, slot) == At(z', slot); }
    }
    BumpCounts(z, z', rec.slot, rec.row, now);
  }

  lemma BumpCounts(z: Zone, z': Zone, slot: Slot, row: Row, now: int)
    requires Counts(z, z') && slot !in z.rows
    ensures Counts(z, Zone(z'.rows[slot := row], Bumped(z'.serial, now)))
  {
    assert slot in z'.rows[slot := row];
  }

  /** The registrations the discovery found, by identity. */
  ghost predicate IsHeldMap(z: Zone, held: map<string, Slot>) {
    && (forall key | key in held :: Registered(z, held[key]) && Identity(At(z, held[key])) == key)
    && (forall slot | Registered(z, slot) :: Identity(At(z, slot)) in held && held[Identity(At(z, slot))] == slot)
  }

  /** The rows without the registrations that are held and not wanted. */
  predicate Deleted(want: map<string, Rec>, held: map<string, Slot>, todo: set<string>, z: Zone, z': Zone) {
    && (forall slot | slot in z'.rows :: slot in z.rows && z'.rows[slot] == z.rows[slot])
    && (forall slot | slot in z.rows :: slot in z'.rows <==>
          !(exists key | key in held :: key !in todo && key !in want && held[key] == slot))
    && Counts(z, z')
  }

  lemma GoneIffHeld(want: map<string, Rec>, z: Zone, held: map<string, Slot>, slot: Slot)
    requires IsHeldMap(z, held) && slot in z.rows
    ensures Gone(want, z, slot) <==> exists key | key in held :: key !in want && held[key] == slot
  {
    if Gone(want, z, slot) {
      assert held[Identity(At(z, slot))] == slot;
    }
  }

  lemma PassDone(want: map<string, Rec>, z: Zone, mid: Zone, z': Zone, held: map<string, Slot>)
    requires IsWant(want) && IsHeldMap(z, held) && Creating(want, z, mid, {}) && Deleted(want, held, {}, mid, z')
    ensures Pass(want, z, z')
  {
    forall slot | slot in z.rows
      ensures if Gone(want, z, slot) then slot !in z'.rows else slot in z'.rows && z'.rows[slot] == z.rows[slot]
    {
      GoneIffHeld(want, z, held, slot);
      assert slot in mid.rows;
    }
    assert Adds(want, z, z') by {
      forall slot | slot in z'.rows && slot !in z.rows ensures Addable(want, z, At(z', slot)) {
        assert At(z', slot) == At(mid, slot);
      }
      forall key | Due(want, z, key) ensures Kept(want[key]).slot in z.rows || Kept(want[key]).slot in z'.rows {
        assert Kept(want[key]).slot in mid.rows;
      }
    }
    if z'.rows == z.rows {
      assert forall slot | slot in mid.rows && slot !in z.rows :: slot in z'.rows;
      assert mid.rows == z.rows;
    }
  }

  /** A wanted record is refused its name by an administrator's. */
  predicate Refuses(want: map<string, Rec>, held: map<string, Slot>, z: Zone, key: string) {
    key in want && key !in held && Administered(z, Kept(want[key]).slot.name)
  }

  function Refused(want: map<string, Rec>, held: map<string, Slot>, z: Zone, todo: set<string>): set<string> {
    set key | key in want && key !in todo && Refuses(want, held, z, key) :: Kept(want[key]).slot.name
  }

  lemma RefusedMore(want: map<string, Rec>, held: map<string, Slot>, z: Zone, todo: set<string>, key: string)
    requires key in todo && key in want
    ensures Refused(want, held, z, todo - {key}) ==
            if Refuses(want, held, z, key) then Refused(want, held, z, todo) + {Kept(want[key]).slot.name} else Refused(want, held, z, todo)
  {
  }

  class Discoverer {
    const cfg: Config
    var zone: Zone
    /** The wanted names an administrator holds, as the last pass found them. */
    var blocked: set<string>

    /** The configured zone is normalized once. */
    constructor (cfg: Config, zone: Zone)
      ensures this.cfg == cfg.(zone := Normalize(cfg.zone)) && Tidy(this.cfg.zone) && this.zone == zone && blocked == {}
    {
      this.cfg, this.zone, this.blocked := cfg.(zone := Normalize(cfg.zone)), zone, {};
      NormalizedIsTidy(cfg.zone);
    }

    /** A registration, refused where its slot is taken. */
    method CreateRegistration(rec: Rec, now: int) returns (ok: bool)
      modifies this`zone
      ensures ok <==> Acceptable(rec) && Kept(rec).slot !in old(zone).rows
      ensures zone == if ok then Zone(old(zone).rows[Kept(rec).slot := rec.row], Bumped(old(zone).serial, now)) else old(zone)
    {
      var slot := rec.slot.(name := Normalize(rec.slot.name));
      if rec.row.origin == "" || slot.name == "" || slot.value == "" || rec.row.ttl <= 0 || slot in zone.rows {
        return false;
      }
      zone := Zone(zone.rows[slot := rec.row], Bumped(zone.serial, now));
      return true;
    }

    /** An administrator's record goes through the management API, a registration does not. */
    method DeleteRecord(slot: Slot, now: int) returns (ok: bool)
      modifies this`zone
      ensures ok <==> slot in old(zone).rows && old(zone).rows[slot].origin == ""
      ensures zone == if ok then Zone(old(zone).rows - {slot}, Bumped(old(zone).serial, now)) else old(zone)
      ensures forall s: Slot :: Registered(zone, s) <==> Registered(old(zone), s)
    {
      if slot !in zone.rows || zone.rows[slot].origin != "" {
        return false;
      }
      zone := Zone(zone.rows - {slot}, Bumped(zone.serial, now));
      return true;
    }

    method DeleteRegistration(slot: Slot, now: int) returns (ok: bool)
      modifies this`zone
      ensures ok <==> slot in old(zone).rows && old(zone).rows[slot].origin != ""
      ensures zone == if ok then Zone(old(zone).rows - {slot}, Bumped(old(zone).serial, now)) else old(zone)
    {
      if slot !in zone.rows || zone.rows[slot].origin == "" {
        return false;
      }
      zone := Zone(zone.rows - {slot}, Bumped(zone.serial, now));
      return true;
    }

    method Held() returns (held: map<string, Slot>)
      requires Sound(zone)
      ensures IsHeldMap(zone, held)
    {
      held := map[];
      var todo := zone.rows.Keys;
      while todo != {}
        invariant todo <= zone.rows.Keys
        invariant forall key | key in held :: Registered(zone, held[key]) && Identity(At(zone, held[key])) == key
        invariant forall slot | Registered(zone, slot) && slot !in todo ::
                    Identity(At(zone, slot)) in held && held[Identity(At(zone, slot))] == slot
        decreases todo
      {
        var slot :| slot in todo;
        todo := todo - {slot};
        if Docker(zone.rows[slot].origin) {
          assert Registered(zone, slot);
          forall s | Registered(zone, s) && Identity(At(zone, s)) == Identity(At(zone, slot)) ensures s == slot {
            IdentityIsUnique(At(zone, s), At(zone, slot));
          }
          held := held[Identity(At(zone, slot)) := slot];
        }
      }
    }

    /** Creates what is wanted and not held, in whatever order the map gives it. */
    method CreateMissing(want: map<string, Rec>, held: map<string, Slot>, now: int)
      requires IsWant(want) && Sound(zone) && IsHeldMap(zone, held)
      requires forall key | key in want :: Acceptable(want[key])
      modifies this
      ensures Creating(want, old(zone), zone, {})
      ensures blocked == Refused(want, held, old(zone), {})
    {
      blocked := {};
      var todo := want.Keys;
      while todo != {}
        invariant todo <= want.Keys && Creating(want, old(zone), zone, todo)
        invariant blocked == Refused(want, held, old(zone), todo)
        decreases todo
      {
        var key :| key in todo;
        RefusedMore(want, held, old(zone), todo, key);
        CreateOne(want, held, key, old(zone), todo, now);
        todo := todo - {key};
      }
    }

    method CreateOne(want: map<string, Rec>, held: map<string, Slot>, key: string, ghost z: Zone, ghost todo: set<string>, now: int)
      requires IsWant(want) && Sound(z) && IsHeldMap(z, held) && key in todo && key in want
      requires Creating(want, z, zone, todo) && Acceptable(want[key])
      modifies this
      ensures Creating(want, z, zone, todo - {key})
      ensures blocked == if Refuses(want, held, z, key) then old(blocked) + {Kept(want[key]).slot.name} else old(blocked)
    {
      HeldIff(z, held, key);
      if key in held {
        return;
      }
      var name := Normalize(want[key].slot.name);
      CreatingSameNames(want, z, zone, todo, name);
      if Administered(zone, name) {
        blocked := blocked + {name};
        return;
      }
      if Kept(want[key]).slot !in zone.rows {
        CreatedOne(want, z, zone, todo, key, now);
      }
      var _ := CreateRegistration(want[key], now);
    }

    method DeleteGone(want: map<string, Rec>, held: map<string, Slot>, now: int)
      requires forall key | key in held :: held[key] in zone.rows && zone.rows[held[key]].origin != ""
      requires forall a, b | a in held && b in held && held[a] == held[b] :: a == b
      modifies this`zone
      ensures Deleted(want, held, {}, old(zone), zone)
    {
      var todo := held.Keys;
      while todo != {}
        invariant todo <= held.Keys && Deleted(want, held, todo, old(zone), zone)
        decreases todo
      {
        var key :| key in todo;
        ghost var before, was := todo, zone;
        todo := todo - {key};
        if key !in want {
          DeletedOne(want, held, before, old(zone), zone, key, now);
          var ok := DeleteRegistration(held[key], now);
        } else {
          NotDeleted(want, held, before, old(zone), zone, key);
        }
      }
    }

    /** One pass over a listing: for any order of its loops the result is a pass. */
    method Reconcile(containers: seq<Container>, now: int)
      requires Plain(cfg, containers) && Sound(zone)
      modifies this
      ensures Sound(zone)
      ensures Reconciles(cfg, containers, old(zone), zone)
    {
      var want := Desired(cfg, containers);
      DesiredIsAcceptable(cfg, containers, want);
      var held := Held();
      CreateMissing(want, held, now);
      ghost var mid := zone;
      DeleteGone(want, held, now);
      PassDone(want, old(zone), mid, zone, held);
      PassKeepsSound(want, old(zone), zone);
    }
  }

  lemma HeldIff(z: Zone, held: map<string, Slot>, key: string)
    requires IsHeldMap(z, held)
    ensures IsHeld(z, key) <==> key in held
  {
    if key in held { assert Identity(At(z, held[key])) == key; }
  }

  lemma DeletedOne(want: map<string, Rec>, held: map<string, Slot>, todo: set<string>, z: Zone, z': Zone, key: string, now: int)
    requires Deleted(want, held, todo, z, z') && key in held && key in todo && key !in want
    requires forall k | k in held :: held[k] in z.rows
    requires forall a, b | a in held && b in held && held[a] == held[b] :: a == b
    ensures held[key] in z'.rows && z'.rows[held[key]] == z.rows[held[key]]
    ensures Deleted(want, held, todo - {key}, z, Zone(z'.rows - {held[key]}, Bumped(z'.serial, now)))
  {
    var rows := z'.rows - {held[key]};
    assert held[key] in z.rows && held[key] !in rows;
    assert rows != z.rows;
  }

  lemma NotDeleted(want: map<string, Rec>, held: map<string, Slot>, todo: set<string>, z: Zone, z': Zone, key: string)
    requires Deleted(want, held, todo, z, z') && key in want
    ensures Deleted(want, held, todo - {key}, z, z')
  {
  }
}
