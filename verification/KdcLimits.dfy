/** Where the promises about tickets stop, shown by runs, and the rule of the client each of them hangs on. */
module KdcLimits {
  import opened Names
  import opened Tickets
  import opened Kdc
  import opened KdcRuns
  import opened KdcTheorems

  // ----- Building runs -----

  const NO_OPTIONS := Options(false, false, false, false, false, false, false, false, false, false, false)

  lemma OneMore(cfg: Config, s: State, es: seq<Event>, e: Event)
    requires s.dir.Valid()
    ensures After(cfg, s, es).dir.Valid() ==> After(cfg, s, es + [e]) == Step(cfg, After(cfg, s, es), e)
    ensures IsRun(cfg, s, es + [e]) <==> IsRun(cfg, s, es) && Allowed(cfg, After(cfg, s, es), e)
  {
    assert (es + [e])[..|es|] == es;
  }

  /** A run given by its states. */
  lemma TwoSteps(cfg: Config, s: State, e1: Event, t1: State, e2: Event, t2: State)
    requires s.dir.Valid() && t1.dir.Valid()
    requires Allowed(cfg, s, e1) && t1 == Step(cfg, s, e1) && Allowed(cfg, t1, e2) && t2 == Step(cfg, t1, e2)
    ensures IsRun(cfg, s, [e1] + [e2]) && After(cfg, s, [e1] + [e2]) == t2
  {
    OneMore(cfg, s, [], e1);
    assert [] + [e1] == [e1];
    OneMore(cfg, s, [e1], e2);
  }

  lemma AsStep(cfg: Config, s: State, req: AsRequest, now: Time, x: Entry)
    requires s.dir.Valid() && AsReply(cfg, s.dir, req, now).reply == Ok(x)
    ensures Step(cfg, s, Event(now, AsReq(req))) == s.(ledger := s.ledger + [x], clock := now)
  {
  }

  lemma TgsStep(cfg: Config, s: State, req: TgsRequest, now: Time, x: Entry)
    requires s.dir.Valid() && TgsReply(cfg, s.dir, s.ledger, req, now) == Ok(x)
    ensures Step(cfg, s, Event(now, TgsReq(req))) == s.(ledger := s.ledger + [x], clock := now)
  {
  }

  lemma PasswordStep(cfg: Config, s: State, req: PasswordRequest, now: Time, c: Change)
    requires s.dir.Valid() && PasswordReply(cfg, s.dir, s.ledger, req, now) == Ok(c)
    ensures Step(cfg, s, Event(now, PasswordReq(req))) == s.(changes := s.changes + [c], clock := now)
  {
  }

  function ClientName(cfg: Config, cname: seq<string>): Name {
    Name(cname, cfg.realm)
  }

  function ChangePw(cfg: Config): Name {
    Name(["kadmin", "changepw"], cfg.realm)
  }

  /** Client and service can be used now, and the realm issues tickets. */
  ghost predicate CanAsk(cfg: Config, dir: Directory, cname: seq<string>, service: Name, now: Time) {
    && dir.Valid() && cfg.maxTicketLife > 0 && cname != [] && service.components != [] && service.realm == cfg.realm
    && now > ZERO_TIME
    && Load(dir, ClientName(cfg, cname), UnknownClient, now).Ok? && Load(dir, service, UnknownServer, now).Ok?
    && (service.IsChangePw() || !Load(dir, ClientName(cfg, cname), UnknownClient, now).value.PasswordExpired(now))
  }

  /** An AS request with a timestamp that verifies. */
  function Ask(cfg: Config, cname: seq<string>, service: Name, body: Body, now: Time): AsRequest {
    AsRequest(cfg.realm, cname, service.components, body, [EncTimestamp(true, true, Some(Some(now)))], true, true)
  }

  function PostBody(from: Time): Body {
    Body(NO_OPTIONS.(postdated := true), from, ZERO_TIME, ZERO_TIME)
  }

  function PlainBody(): Body {
    Body(NO_OPTIONS, ZERO_TIME, ZERO_TIME, ZERO_TIME)
  }

  /** What the request for a postdated ticket gets. */
  lemma PostdatedIsMinted(cfg: Config, dir: Directory, cname: seq<string>, service: Name, from: Time, now: Time)
    requires CanAsk(cfg, dir, cname, service, now) && from != ZERO_TIME
    requires dir.Find(ClientName(cfg, cname)).value.rules.allowPostdate
    ensures var reply := AsReply(cfg, dir, Ask(cfg, cname, service, PostBody(from), now), now).reply;
            && reply.Ok? && reply.value.origin == AsExchange(true)
            && var t := reply.value.ticket;
            && t.client == ClientName(cfg, cname) && t.sealedFor == dir.Find(service).value.id
            && t.flags.initial && t.flags.invalid && t.startTime == from && t.endTime > from
  {
    assert service == Name(service.components, cfg.realm);
  }

  /** What the plain request gets: a ticket that is not renewable, with the life the rules allow. */
  lemma PlainIsMinted(cfg: Config, dir: Directory, cname: seq<string>, service: Name, now: Time)
    requires CanAsk(cfg, dir, cname, service, now)
    ensures var reply := AsReply(cfg, dir, Ask(cfg, cname, service, PlainBody(), now), now).reply;
            && reply.Ok? && reply.value.origin.AsExchange?
            && var t := reply.value.ticket;
            && t.client == ClientName(cfg, cname) && t.sealedFor == dir.Find(service).value.id
            && !t.flags.invalid && !t.flags.renewable && t.startTime == now
            && t.endTime == now + EffectiveLife(dir.Find(ClientName(cfg, cname)).value.rules.maxTicketLife,
                                                dir.Find(service).value.rules.maxTicketLife, cfg.maxTicketLife)
  {
    assert service == Name(service.components, cfg.realm);
  }

  // ----- A password change on a ticket that is not valid yet -----

  /** A run with fixed rules in which a password change of `subject` rests on an INVALID ticket. */
  ghost predicate ChangesOnInvalid(cfg: Config, s: State, es: seq<Event>, subject: Name)
    requires s.dir.Valid()
  {
    && IsRun(cfg, s, es) && RulesFixed(s.dir, es)
    && exists i :: 0 <= i < |After(cfg, s, es).changes| && OnInvalid(After(cfg, s, es), After(cfg, s, es).changes[i], subject)
  }

  predicate OnInvalid(t: State, c: Change, subject: Name) {
    c.subject == subject && c.ticket < |t.ledger| && t.ledger[c.ticket].ticket.flags.invalid
  }

  function ChangeRequest(index: nat, name: Name, now: Time): PasswordRequest {
    PasswordRequest(Presented(index, name), now, None, true)
  }

  /** The password service looks at neither INVALID nor the start time: a postdated ticket changes the
      password at once, however far away its start is. */
  lemma EarlyChange(cfg: Config, s: State, cname: seq<string>, from: Time)
    requires Initial(s) && CanAsk(cfg, s.dir, cname, ChangePw(cfg), s.clock) && from > s.clock
    requires s.dir.Find(ClientName(cfg, cname)).value.rules.allowPostdate
    ensures exists es :: ChangesOnInvalid(cfg, s, es, ClientName(cfg, cname))
                         && After(cfg, s, es).ledger[0].ticket.startTime == from && After(cfg, s, es).clock == s.clock
  {
    var now, service := s.clock, ChangePw(cfg);
    var e1 := Event(now, AsReq(Ask(cfg, cname, service, PostBody(from), now)));
    var e2 := Event(now, PasswordReq(ChangeRequest(0, service, now)));
    PostdatedIsMinted(cfg, s.dir, cname, service, from, now);
    var x := AsReply(cfg, s.dir, e1.action.as_, now).reply.value;
    AsStep(cfg, s, e1.action.as_, now, x);
    var t1 := s.(ledger := s.ledger + [x], clock := now);
    ChangeIsApplied(cfg, s.dir, t1.ledger, 0, service, now);
    var c := Change(x.ticket.client, 0, now);
    PasswordStep(cfg, t1, e2.action.pw, now, c);
    var t2 := t1.(changes := s.changes + [c]);
    TwoSteps(cfg, s, e1, t1, e2, t2);
    EarlyIsChange(cfg, s, [e1] + [e2], t2, ClientName(cfg, cname));
  }

  lemma EarlyIsChange(cfg: Config, s: State, es: seq<Event>, t: State, subject: Name)
    requires s.dir.Valid() && IsRun(cfg, s, es) && t == After(cfg, s, es) && RulesFixed(s.dir, es)
    requires |t.changes| == 1 && OnInvalid(t, t.changes[0], subject)
    ensures ChangesOnInvalid(cfg, s, es, subject)
  {
  }

  /** What the password service asks of a ticket: INITIAL, not past its end, and a client it knows. */
  lemma ChangeIsApplied(cfg: Config, dir: Directory, ledger: Ledger, i: nat, name: Name, now: Time)
    requires dir.Valid() && i < |ledger| && name.IsChangePw() && Answers(dir.names, name, ledger[i].ticket.sealedFor)
    requires ledger[i].ticket.flags.initial && now <= ledger[i].ticket.endTime && dir.Find(ledger[i].ticket.client).Some?
    ensures PasswordReply(cfg, dir, ledger, ChangeRequest(i, name, now), now) == Ok(Change(ledger[i].ticket.client, i, now))
  {
  }

  lemma InvalidChangeNeedsPostdate(cfg: Config, s: State, es: seq<Event>, subject: Name)
    requires Initial(s) && subject.realm == cfg.realm && ChangesOnInvalid(cfg, s, es, subject)
    ensures s.dir.Find(subject).Some? && s.dir.Find(subject).value.rules.allowPostdate
  {
    RunInv(cfg, s, es);
    RunRuled(cfg, s, es);
    var t := After(cfg, s, es);
    var i :| 0 <= i < |t.changes| && OnInvalid(t, t.changes[i], subject);
    assert t.changes[i] in t.changes && Justified(s.dir.names, t.ledger, t.changes[i]);
    InvalidInitial(cfg, s.dir, t.ledger, t.changes[i].ticket);
  }

  /** An INITIAL and INVALID ticket of a local client comes from that client's own postdating. */
  lemma InvalidInitial(cfg: Config, dir: Directory, ledger: Ledger, i: nat)
    requires dir.Valid() && AllLawful(cfg, dir.names, ledger) && AllRuled(cfg, dir, ledger) && i < |ledger|
    requires ledger[i].ticket.flags.initial && ledger[i].ticket.flags.invalid && Local(cfg, ledger[i].ticket)
    ensures dir.Find(ledger[i].ticket.client).Some? && dir.Find(ledger[i].ticket.client).value.rules.allowPostdate
  {
    assert Lawful(cfg, dir.names, ledger, i) && ledger[i] in ledger;
  }

  /** A client can change its password with a ticket that is not valid yet exactly when its rules let it
      postdate tickets. */
  lemma EarlyChangeIffPostdate(cfg: Config, s: State, cname: seq<string>)
    requires Initial(s) && CanAsk(cfg, s.dir, cname, ChangePw(cfg), s.clock)
    ensures (exists es :: ChangesOnInvalid(cfg, s, es, ClientName(cfg, cname))) <==>
            s.dir.Find(ClientName(cfg, cname)).value.rules.allowPostdate
  {
    if es :| ChangesOnInvalid(cfg, s, es, ClientName(cfg, cname)) {
      InvalidChangeNeedsPostdate(cfg, s, es, ClientName(cfg, cname));
    }
    if s.dir.Find(ClientName(cfg, cname)).value.rules.allowPostdate { EarlyChange(cfg, s, cname, s.clock + 1); }
  }

  // ----- A password change on a ticket no AS exchange minted -----

  /** A run in which a change rests on a local client's ticket for `id` that no AS exchange minted. */
  ghost predicate ChangesOnDerived(cfg: Config, s: State, es: seq<Event>, id: int)
    requires s.dir.Valid()
  {
    && IsRun(cfg, s, es)
    && exists i :: 0 <= i < |After(cfg, s, es).changes| && OnDerived(cfg, After(cfg, s, es), After(cfg, s, es).changes[i], id)
  }

  predicate OnDerived(cfg: Config, t: State, c: Change, id: int) {
    && c.ticket < |t.ledger| && Local(cfg, t.ledger[c.ticket].ticket) && t.ledger[c.ticket].ticket.sealedFor == id
    && !t.ledger[c.ticket].origin.AsExchange?
  }

  function ValidateRequest(index: nat, name: Name): TgsRequest {
    TgsRequest(Presented(index, name), name, Body(NO_OPTIONS.(validate := true), ZERO_TIME, ZERO_TIME, ZERO_TIME),
               None, None, false, None, true, true, true, true)
  }

  lemma ValidationIsMinted(cfg: Config, dir: Directory, ledger: Ledger, i: nat, name: Name, now: Time)
    requires dir.Valid() && i < |ledger| && name.IsTgs() && Answers(dir.names, name, ledger[i].ticket.sealedFor)
    requires Load(dir, name, UnknownServer, now).Ok?
    requires ledger[i].ticket.flags.invalid && ledger[i].ticket.startTime <= now <= ledger[i].ticket.endTime
    ensures var t := ledger[i].ticket;
            TgsReply(cfg, dir, ledger, ValidateRequest(i, name), now) ==
            Ok(Entry(t.(server := name, flags := t.flags.(invalid := false)), Validation(i), now))
  {
    var req := ValidateRequest(i, name);
    assert Authenticate(cfg, dir, ledger, req, now) == Ok(ledger[i].ticket);
  }

  /** A principal that is both the password service and a ticket-granting service: a postdated ticket for it
      is validated as a TGT, stays INITIAL, and then changes the password. */
  lemma ValidatedChange(cfg: Config, s: State, cname: seq<string>, name: Name)
    requires Initial(s) && CanAsk(cfg, s.dir, cname, ChangePw(cfg), s.clock)
    requires s.dir.Find(ClientName(cfg, cname)).value.rules.allowPostdate
    requires name.IsTgs() && Answers(s.dir.names, name, s.dir.Find(ChangePw(cfg)).value.id)
    ensures exists es :: ChangesOnDerived(cfg, s, es, s.dir.Find(ChangePw(cfg)).value.id)
  {
    var now, service := s.clock, ChangePw(cfg);
    var e1 := Event(now, AsReq(Ask(cfg, cname, service, PostBody(now), now)));
    var e2 := Event(now, TgsReq(ValidateRequest(0, name)));
    var e3 := Event(now, PasswordReq(ChangeRequest(1, service, now)));
    PostdatedIsMinted(cfg, s.dir, cname, service, now, now);
    var x := AsReply(cfg, s.dir, e1.action.as_, now).reply.value;
    AsStep(cfg, s, e1.action.as_, now, x);
    var t1 := s.(ledger := s.ledger + [x], clock := now);
    ValidationIsMinted(cfg, s.dir, t1.ledger, 0, name, now);
    var y := TgsReply(cfg, s.dir, t1.ledger, e2.action.tgs, now).value;
    TgsStep(cfg, t1, e2.action.tgs, now, y);
    var t2 := t1.(ledger := t1.ledger + [y]);
    TwoSteps(cfg, s, e1, t1, e2, t2);
    ChangeIsApplied(cfg, s.dir, t2.ledger, 1, service, now);
    var c := Change(y.ticket.client, 1, now);
    PasswordStep(cfg, t2, e3.action.pw, now, c);
    OneMore(cfg, s, [e1] + [e2], e3);
    DerivedIsChange(cfg, s, [e1] + [e2] + [e3], t2.(changes := s.changes + [c]), s.dir.Find(service).value.id);
  }

  lemma DerivedIsChange(cfg: Config, s: State, es: seq<Event>, t: State, id: int)
    requires s.dir.Valid() && IsRun(cfg, s, es) && t == After(cfg, s, es)
    requires |t.changes| == 1 && OnDerived(cfg, t, t.changes[0], id)
    ensures ChangesOnDerived(cfg, s, es, id)
  {
  }

  /** With a client that may postdate: some password change rests on a ticket for the password service that
      no AS exchange minted exactly when that service also answers to a ticket-granting name. */
  lemma DerivedChangeIffTgs(cfg: Config, s: State, cname: seq<string>)
    requires Initial(s) && CanAsk(cfg, s.dir, cname, ChangePw(cfg), s.clock)
    requires s.dir.Find(ClientName(cfg, cname)).value.rules.allowPostdate
    ensures var id := s.dir.Find(ChangePw(cfg)).value.id;
            (exists es :: ChangesOnDerived(cfg, s, es, id)) <==> IsTgsPrincipal(s.dir.names, id)
  {
    var id := s.dir.Find(ChangePw(cfg)).value.id;
    if es :| ChangesOnDerived(cfg, s, es, id) {
      var t := After(cfg, s, es);
      var i :| 0 <= i < |t.changes| && OnDerived(cfg, t, t.changes[i], id);
      PasswordChangesRestOnAsExchange(cfg, s, es, t.changes[i]);
    }
    if name: Name :| name.IsTgs() && Answers(s.dir.names, name, id) {
      ValidatedChange(cfg, s, cname, name);
    }
  }

  // ----- How far a derivation can reach -----

  /** The client's rules bar renewal: nothing derived for it outlives where it started. */
  lemma {:induction false} EndsByRoot(cfg: Config, dir: Directory, ledger: Ledger, i: nat)
    requires dir.Valid() && AllLawful(cfg, dir.names, ledger) && AllRuled(cfg, dir, ledger) && i < |ledger|
    requires Local(cfg, ledger[i].ticket) && dir.Find(ledger[i].ticket.client).Some?
    requires !dir.Find(ledger[i].ticket.client).value.rules.allowRenewable
    ensures !ledger[i].ticket.flags.renewable && ZERO_TIME < ledger[i].ticket.endTime <= ledger[Root(ledger, i)].ticket.endTime
    decreases i
  {
    assert Lawful(cfg, dir.names, ledger, i) && ledger[i] in ledger;
    match Parent(ledger[i])
    case Some(j) => EndsByRoot(cfg, dir, ledger, j);
    case None =>
  }

  /** A run with fixed rules in which a ticket for `client` outlives the AS ticket it descends from by more
      than `bound`. */
  ghost predicate Outlives(cfg: Config, s: State, es: seq<Event>, i: nat, client: Name, bound: nat)
    requires s.dir.Valid()
  {
    && IsRun(cfg, s, es) && RulesFixed(s.dir, es) && i < |After(cfg, s, es).ledger|
    && var ledger := After(cfg, s, es).ledger;
    && ledger[i].ticket.client == client && ledger[Root(ledger, i)].origin.AsExchange?
    && ledger[i].ticket.endTime > ledger[Root(ledger, i)].ticket.endTime + bound
  }

  lemma OutlivingNeedsRenewal(cfg: Config, s: State, es: seq<Event>, i: nat, client: Name, bound: nat)
    requires Initial(s) && client.realm == cfg.realm && s.dir.Find(client).Some? && Outlives(cfg, s, es, i, client, bound)
    ensures s.dir.Find(client).value.rules.allowRenewable
  {
    RunInv(cfg, s, es);
    RunRuled(cfg, s, es);
    if !s.dir.Find(client).value.rules.allowRenewable { EndsByRoot(cfg, s.dir, After(cfg, s, es).ledger, i); }
  }

  /** A principal nothing puts out of use. */
  predicate Standing(p: Principal) {
    p.enabled && p.hasKeys && p.expiresAt.None? && p.lockedUntil.None? && p.passwordExpiresAt.None?
  }

  /** The realm, its ticket-granting service and a client that stand, with a renewable life longer than a
      ticket's. */
  ghost predicate Stands(cfg: Config, dir: Directory, cname: seq<string>) {
    && dir.Valid() && cfg.maxTicketLife > 0 && cname != []
    && dir.Find(ClientName(cfg, cname)).Some? && dir.Find(Tgs(cfg)).Some?
    && Standing(dir.Find(ClientName(cfg, cname)).value) && Standing(dir.Find(Tgs(cfg)).value)
    && dir.Find(Tgs(cfg)).value.rules.allowRenewable
    && Life(cfg, dir, cname) < RenewLife(cfg, dir, cname)
  }

  function Life(cfg: Config, dir: Directory, cname: seq<string>): nat
    requires dir.Valid() && dir.Find(ClientName(cfg, cname)).Some? && dir.Find(Tgs(cfg)).Some?
  {
    EffectiveLife(dir.Find(ClientName(cfg, cname)).value.rules.maxTicketLife, dir.Find(Tgs(cfg)).value.rules.maxTicketLife,
                  cfg.maxTicketLife)
  }

  function RenewLife(cfg: Config, dir: Directory, cname: seq<string>): nat
    requires dir.Valid() && dir.Find(ClientName(cfg, cname)).Some? && dir.Find(Tgs(cfg)).Some?
  {
    EffectiveLife(dir.Find(ClientName(cfg, cname)).value.rules.maxRenewableLife, dir.Find(Tgs(cfg)).value.rules.maxRenewableLife,
                  cfg.maxRenewableLife)
  }

  /** Ticket `t` is a TGT of the client that ends at `end`. */
  ghost predicate TgtUntil(cfg: Config, dir: Directory, cname: seq<string>, t: Ticket, end: Time)
    requires dir.Valid() && dir.Find(Tgs(cfg)).Some?
  {
    && t.client == ClientName(cfg, cname) && t.sealedFor == dir.Find(Tgs(cfg)).value.id
    && !t.flags.invalid && t.startTime <= end == t.endTime && end > ZERO_TIME
  }

  /** The request that buys a RENEWABLE ticket-granting ticket with TGT `i`. */
  function BuyRequest(cfg: Config, i: nat): TgsRequest {
    TgsRequest(Presented(i, Tgs(cfg)), Tgs(cfg), Body(NO_OPTIONS.(renewable := true), ZERO_TIME, ZERO_TIME, ZERO_TIME),
               None, None, false, None, true, true, true, true)
  }

  function RenewRequest(cfg: Config, i: nat): TgsRequest {
    TgsRequest(Presented(i, Tgs(cfg)), Tgs(cfg), Body(NO_OPTIONS.(renew := true), ZERO_TIME, ZERO_TIME, ZERO_TIME),
               None, None, false, None, true, true, true, true)
  }

  /** At its very end a TGT buys a ticket that ends at once and can still be renewed. */
  lemma BuysAtTheEnd(cfg: Config, dir: Directory, cname: seq<string>, ledger: Ledger, i: nat, end: Time)
    requires Stands(cfg, dir, cname) && dir.Find(ClientName(cfg, cname)).value.rules.allowRenewable
    requires i < |ledger| && TgtUntil(cfg, dir, cname, ledger[i].ticket, end)
    ensures var reply := TgsReply(cfg, dir, ledger, BuyRequest(cfg, i), end);
            && reply.Ok? && reply.value.origin == ServiceTicket(i)
            && TgtUntil(cfg, dir, cname, reply.value.ticket, end)
            && reply.value.ticket.flags.renewable && reply.value.ticket.renewTill == end + RenewLife(cfg, dir, cname)
  {
    var req := BuyRequest(cfg, i);
    assert Authenticate(cfg, dir, ledger, req, end) == Ok(ledger[i].ticket);
    assert Referred(cfg, dir, req) == Ok(Tgs(cfg));
  }

  lemma RenewalAtTheEnd(cfg: Config, dir: Directory, cname: seq<string>, i: nat, t: Ticket, end: Time)
    requires Stands(cfg, dir, cname) && TgtUntil(cfg, dir, cname, t, end)
    requires t.flags.renewable && t.renewTill == end + RenewLife(cfg, dir, cname)
    ensures var reply := RenewReply(cfg, dir, RenewRequest(cfg, i), t, end);
            && reply.Ok? && reply.value.origin == Renewal(i)
            && TgtUntil(cfg, dir, cname, reply.value.ticket, end + Life(cfg, dir, cname))
  {
  }

  lemma RenewsAtTheEnd(cfg: Config, dir: Directory, cname: seq<string>, ledger: Ledger, i: nat, end: Time)
    requires Stands(cfg, dir, cname) && i < |ledger| && TgtUntil(cfg, dir, cname, ledger[i].ticket, end)
    requires ledger[i].ticket.flags.renewable && ledger[i].ticket.renewTill == end + RenewLife(cfg, dir, cname)
    ensures var reply := TgsReply(cfg, dir, ledger, RenewRequest(cfg, i), end);
            && reply.Ok? && reply.value.origin == Renewal(i)
            && TgtUntil(cfg, dir, cname, reply.value.ticket, end + Life(cfg, dir, cname))
  {
    var req := RenewRequest(cfg, i);
    assert Authenticate(cfg, dir, ledger, req, end) == Ok(ledger[i].ticket);
    assert TgsReply(cfg, dir, ledger, req, end) == RenewReply(cfg, dir, req, ledger[i].ticket, end);
    RenewalAtTheEnd(cfg, dir, cname, i, ledger[i].ticket, end);
  }

  /** A run from `s` to `t` in which nobody is administered. */
  ghost predicate RunsTo(cfg: Config, s: State, es: seq<Event>, t: State)
    requires s.dir.Valid()
  {
    IsRun(cfg, s, es) && RulesFixed(s.dir, es) && After(cfg, s, es) == t && t.dir == s.dir
  }

  /** The last ticket is a TGT of the client until `end`, descended from the first. */
  ghost predicate Extends(cfg: Config, dir: Directory, cname: seq<string>, ledger: Ledger, end: Time)
    requires dir.Valid() && dir.Find(Tgs(cfg)).Some?
  {
    && ledger != [] && TgtUntil(cfg, dir, cname, ledger[|ledger| - 1].ticket, end)
    && Root(ledger, |ledger| - 1) == 0 && ledger[0].origin.AsExchange?
  }

  ghost predicate Reaches(cfg: Config, s: State, cname: seq<string>, es: seq<Event>, t: State, end: Time)
    requires s.dir.Valid() && s.dir.Find(Tgs(cfg)).Some?
  {
    RunsTo(cfg, s, es, t) && Extends(cfg, s.dir, cname, t.ledger, end) && t.clock <= end
  }

  lemma {:induction false} RootStays(ledger: Ledger, x: Entry, i: nat)
    requires i < |ledger|
    ensures Root(ledger + [x], i) == Root(ledger, i)
    decreases i
  {
    match Parent(ledger[i])
    case Some(j) => if j < i { RootStays(ledger, x, j); }
    case None =>
  }

  /** What follows the last entry has its root. */
  lemma RootFollows(ledger: Ledger, x: Entry)
    requires ledger != [] && Parent(x) == Some(|ledger| - 1)
    ensures Root(ledger + [x], |ledger|) == Root(ledger, |ledger| - 1)
  {
    assert (ledger + [x])[|ledger|] == x;
    RootStays(ledger, x, |ledger| - 1);
  }

  lemma StartsReaching(cfg: Config, s: State, cname: seq<string>) returns (es: seq<Event>, t: State)
    requires Initial(s) && Stands(cfg, s.dir, cname)
    ensures Reaches(cfg, s, cname, es, t, s.clock + Life(cfg, s.dir, cname))
    ensures t.ledger[0].ticket.endTime == s.clock + Life(cfg, s.dir, cname)
  {
    var now := s.clock;
    var req := Ask(cfg, cname, Tgs(cfg), PlainBody(), now);
    PlainIsMinted(cfg, s.dir, cname, Tgs(cfg), now);
    var x := AsReply(cfg, s.dir, req, now).reply.value;
    AsStep(cfg, s, req, now, x);
    OneMore(cfg, s, [], Event(now, AsReq(req)));
    es, t := [] + [Event(now, AsReq(req))], s.(ledger := s.ledger + [x], clock := now);
  }

  lemma RunGoesOn(cfg: Config, s: State, es: seq<Event>, t: State, req: TgsRequest, now: Time, x: Entry)
    requires s.dir.Valid() && RunsTo(cfg, s, es, t) && t.clock <= now
    requires TgsReply(cfg, t.dir, t.ledger, req, now) == Ok(x)
    ensures RunsTo(cfg, s, es + [Event(now, TgsReq(req))], t.(ledger := t.ledger + [x], clock := now))
  {
    OneMore(cfg, s, es, Event(now, TgsReq(req)));
    TgsStep(cfg, t, req, now, x);
  }

  /** One more ticket that the chain's last one was exchanged for carries the chain on. */
  lemma ChainGoesOn(cfg: Config, dir: Directory, cname: seq<string>, ledger: Ledger, end: Time, x: Entry, end': Time)
    requires dir.Valid() && dir.Find(Tgs(cfg)).Some? && Extends(cfg, dir, cname, ledger, end)
    requires Parent(x) == Some(|ledger| - 1) && TgtUntil(cfg, dir, cname, x.ticket, end')
    ensures Extends(cfg, dir, cname, ledger + [x], end') && (ledger + [x])[0] == ledger[0]
  {
    RootFollows(ledger, x);
  }

  predicate Renewing(t: Ticket, till: int) {
    t.flags.renewable && t.renewTill == till
  }

  lemma ReachesBought(cfg: Config, s: State, cname: seq<string>, es: seq<Event>, t: State, end: Time)
    returns (es': seq<Event>, t': State)
    requires Initial(s) && Stands(cfg, s.dir, cname) && s.dir.Find(ClientName(cfg, cname)).value.rules.allowRenewable
    requires Reaches(cfg, s, cname, es, t, end)
    ensures Reaches(cfg, s, cname, es', t', end) && t'.ledger[0] == t.ledger[0]
    ensures Renewing(t'.ledger[|t'.ledger| - 1].ticket, end + RenewLife(cfg, s.dir, cname))
  {
    var buy := BuyRequest(cfg, |t.ledger| - 1);
    BuysAtTheEnd(cfg, s.dir, cname, t.ledger, |t.ledger| - 1, end);
    var x := TgsReply(cfg, s.dir, t.ledger, buy, end).value;
    RunGoesOn(cfg, s, es, t, buy, end, x);
    ChainGoesOn(cfg, s.dir, cname, t.ledger, end, x, end);
    es', t' := es + [Event(end, TgsReq(buy))], t.(ledger := t.ledger + [x], clock := end);
  }

  lemma RunRenews(cfg: Config, s: State, cname: seq<string>, es: seq<Event>, t: State, i: nat, end: Time) returns (y: Entry)
    requires Stands(cfg, s.dir, cname) && RunsTo(cfg, s, es, t) && t.clock <= end && i < |t.ledger|
    requires TgtUntil(cfg, s.dir, cname, t.ledger[i].ticket, end)
    requires Renewing(t.ledger[i].ticket, end + RenewLife(cfg, s.dir, cname))
    ensures RunsTo(cfg, s, es + [Event(end, TgsReq(RenewRequest(cfg, i)))], t.(ledger := t.ledger + [y], clock := end))
    ensures Parent(y) == Some(i) && TgtUntil(cfg, s.dir, cname, y.ticket, end + Life(cfg, s.dir, cname))
  {
    RenewsAtTheEnd(cfg, s.dir, cname, t.ledger, i, end);
    y := TgsReply(cfg, s.dir, t.ledger, RenewRequest(cfg, i), end).value;
    RunGoesOn(cfg, s, es, t, RenewRequest(cfg, i), end, y);
  }

  lemma ReachesRenewed(cfg: Config, s: State, cname: seq<string>, es: seq<Event>, t: State, end: Time)
    returns (es': seq<Event>, t': State)
    requires Initial(s) && Stands(cfg, s.dir, cname) && Reaches(cfg, s, cname, es, t, end)
    requires Renewing(t.ledger[|t.ledger| - 1].ticket, end + RenewLife(cfg, s.dir, cname))
    ensures Reaches(cfg, s, cname, es', t', end + Life(cfg, s.dir, cname)) && t'.ledger[0] == t.ledger[0]
  {
    var renew := RenewRequest(cfg, |t.ledger| - 1);
    var y := RunRenews(cfg, s, cname, es, t, |t.ledger| - 1, end);
    ChainGoesOn(cfg, s.dir, cname, t.ledger, end, y, end + Life(cfg, s.dir, cname));
    es', t' := es + [Event(end, TgsReq(renew))], t.(ledger := t.ledger + [y], clock := end);
  }

  /** Buying and renewing, again and again. */
  lemma {:induction false} ReachesFar(cfg: Config, s: State, cname: seq<string>, n: nat)
    returns (es: seq<Event>, t: State, end: Time)
    requires Initial(s) && Stands(cfg, s.dir, cname) && s.dir.Find(ClientName(cfg, cname)).value.rules.allowRenewable
    ensures Reaches(cfg, s, cname, es, t, end)
    ensures t.ledger[0].ticket.endTime == s.clock + Life(cfg, s.dir, cname) && end >= t.ledger[0].ticket.endTime + n
    decreases n
  {
    if n == 0 {
      es, t := StartsReaching(cfg, s, cname);
      end := s.clock + Life(cfg, s.dir, cname);
    } else {
      es, t, end := ReachesFar(cfg, s, cname, n - 1);
      es, t := ReachesBought(cfg, s, cname, es, t, end);
      es, t := ReachesRenewed(cfg, s, cname, es, t, end);
      end := end + Life(cfg, s.dir, cname);
    }
  }

  /** Some run with fixed rules takes a ticket of the client that far beyond the AS ticket it descends from. */
  ghost predicate CanOutlive(cfg: Config, s: State, client: Name, bound: nat)
    requires s.dir.Valid()
  {
    exists es, i: nat :: Outlives(cfg, s, es, i, client, bound)
  }

  /** The renew-until time is not clamped to the source ticket. So even a ticket that is not renewable is the
      start of a chain that runs on for as long as one likes, a ticket bought at each end and renewed,
      exactly when the client may renew. */
  lemma UnboundedIffRenewable(cfg: Config, s: State, cname: seq<string>)
    requires Initial(s) && Stands(cfg, s.dir, cname)
    ensures (forall bound: nat :: CanOutlive(cfg, s, ClientName(cfg, cname), bound)) <==>
            s.dir.Find(ClientName(cfg, cname)).value.rules.allowRenewable
  {
    var client := ClientName(cfg, cname);
    if s.dir.Find(client).value.rules.allowRenewable {
      forall bound: nat ensures CanOutlive(cfg, s, client, bound) {
        var es, t, end := ReachesFar(cfg, s, cname, bound + 1);
        assert Outlives(cfg, s, es, |t.ledger| - 1, client, bound);
      }
    } else if CanOutlive(cfg, s, client, 0) {
      var es, i: nat :| Outlives(cfg, s, es, i, client, 0);
      OutlivingNeedsRenewal(cfg, s, es, i, client, 0);
    }
  }
}
