/** What every ticket of a run was granted on: the request, the principals as the directory then had them,
    and what both allow. */
module KdcGrants {
  import opened Names
  import opened Tickets
  import opened Kdc
  import opened KdcRuns

  /** Enabled, with keys, neither expired nor locked. */
  predicate InUse(p: Principal, now: Time) {
    && p.enabled && p.hasKeys
    && (p.expiresAt.Some? ==> now < p.expiresAt.value)
    && (p.lockedUntil.Some? ==> p.lockedUntil.value <= now)
  }

  lemma UsableIffInUse(p: Principal, now: Time)
    ensures p.StatusAt(now) == Usable <==> InUse(p, now)
  {
  }

  /** The flags and times of a ticket are what the request asks for, as far as client and service allow.
      FORWARDABLE is left to the step where the step decides it. */
  predicate Decided(cfg: Config, c: Rules, p: Rules, body: Body, t: Ticket, now: Time, asked: bool) {
    && (asked ==> (t.flags.forwardable <==> body.options.forwardable && c.allowForwardable && p.allowForwardable))
    && (t.flags.proxiable <==> body.options.proxiable && c.allowProxiable && p.allowProxiable)
    && (t.flags.mayPostdate <==> body.options.allowPostdate && c.allowPostdate)
    && t.flags.okAsDelegate == p.okAsDelegate
    && (t.flags.postdated <==> body.options.postdated && body.from != ZERO_TIME)
    && (t.flags.postdated ==> c.allowPostdate && t.startTime == body.from)
    && (!t.flags.postdated ==> t.startTime == now && body.from <= now + cfg.clockSkew)
    && t.endTime <= t.startTime + EffectiveLife(c.maxTicketLife, p.maxTicketLife, cfg.maxTicketLife)
    && (IsRequested(body.till) ==> t.endTime <= body.till)
    && (t.flags.renewable ==>
          && c.allowRenewable && p.allowRenewable && (body.options.renewable || body.options.renewableOk)
          && t.renewTill <= t.startTime + EffectiveLife(c.maxRenewableLife, p.maxRenewableLife, cfg.maxRenewableLife)
          && (body.options.renewable && IsRequested(body.rtime) ==> t.renewTill <= body.rtime))
  }

  // ----- The AS exchange -----

  function Wanted(cfg: Config, req: AsRequest): Name {
    Name(if req.sname == [] then ["krbtgt", cfg.realm] else req.sname, cfg.realm)
  }

  /** What an AS ticket is granted on. */
  ghost predicate Granted(cfg: Config, dir: Directory, req: AsRequest, e: Entry)
    requires dir.Valid()
  {
    && req.realm == cfg.realm && req.cname != [] && req.encTypes && req.sealable
    && dir.Find(Name(req.cname, cfg.realm)).Some? && dir.Find(Wanted(cfg, req)).Some?
    && var c, p := dir.Find(Name(req.cname, cfg.realm)).value, dir.Find(Wanted(cfg, req)).value;
    && InUse(c, e.at) && InUse(p, e.at)
    && e.ticket.client == (if req.body.options.canonicalize then c.canonical else Name(req.cname, cfg.realm))
    && e.ticket.server == (if req.body.options.canonicalize then p.canonical else Wanted(cfg, req))
    && e.ticket.sealedFor == p.id
    && (c.passwordExpiresAt.Some? && c.passwordExpiresAt.value <= e.at ==> e.ticket.server.IsChangePw())
    && (e.ticket.flags.preAuthent <==> Verifies(FirstTimestamp(req.padata), e.at, cfg.clockSkew))
    && (cfg.requirePreAuth || c.requiresPreAuth ==> e.ticket.flags.preAuthent)
    && Decided(cfg, c.rules, p.rules, req.body, e.ticket, e.at, true)
  }

  lemma AsGrants(cfg: Config, dir: Directory, req: AsRequest, now: Time)
    requires dir.Valid() && AsReply(cfg, dir, req, now).reply.Ok?
    ensures Granted(cfg, dir, req, AsReply(cfg, dir, req, now).reply.value)
  {
    var c, p := dir.Find(Name(req.cname, cfg.realm)).value, dir.Find(Wanted(cfg, req)).value;
    UsableIffInUse(c, now);
    UsableIffInUse(p, now);
  }

  /** A client without pre-authentication is refused for want of it exactly when the realm or the client
      requires it: for any request that a timestamp which verifies would have carried through. */
  lemma PreAuthRequiredIff(cfg: Config, dir: Directory, req: AsRequest, now: Time)
    requires dir.Valid() && FirstTimestamp(req.padata).None?
    requires AsReply(cfg, dir, req.(padata := [EncTimestamp(true, true, Some(Some(now)))]), now).reply.Ok?
    ensures var c := dir.Find(Name(req.cname, cfg.realm)).value;
            var out := AsReply(cfg, dir, req, now);
            && (out.reply == Err(PreAuthRequired) <==> cfg.requirePreAuth || c.requiresPreAuth)
            && (out.reply.Ok? <==> !cfg.requirePreAuth && !c.requiresPreAuth)
            && out.recorded == None
  {
  }

  /** What a timestamp is counted as: a failure when the key it names does not open it, or opens nothing that
      is a timestamp, a success when it verifies, and nothing otherwise. */
  predicate Counted(out: AsOutcome, pa: PaData, now: Time, skew: nat)
    requires pa.EncTimestamp?
  {
    var opens := pa.wellFormed && pa.keyHeld && pa.plain.Some? && pa.plain.value.Some?;
    && (out.recorded == Some(false) <==> pa.wellFormed && pa.keyHeld && !opens)
    && (out.recorded == Some(true) <==> opens && pa.plain.value.value <= now + skew && now <= pa.plain.value.value + skew)
    && (out.reply.Ok? <==> out.recorded == Some(true))
  }

  /** Once client and service are found, the timestamp alone decides what a request that another one would
      carry through comes to. */
  lemma ServeCounts(cfg: Config, req: AsRequest, client: Principal, clientName: Name, server: Principal, serverName: Name,
                    now: Time, pa: PaData)
    requires pa.EncTimestamp?
    requires AsServe(cfg, req.(padata := [EncTimestamp(true, true, Some(Some(now)))]), client, clientName, server, serverName, now).reply.Ok?
    ensures Counted(AsServe(cfg, req.(padata := [pa]), client, clientName, server, serverName, now), pa, now, cfg.clockSkew)
  {
    assert FirstTimestamp([pa]) == Some(pa);
  }

  lemma RecordedIff(cfg: Config, dir: Directory, req: AsRequest, now: Time, pa: PaData)
    requires dir.Valid() && pa.EncTimestamp?
    requires AsReply(cfg, dir, req.(padata := [EncTimestamp(true, true, Some(Some(now)))]), now).reply.Ok?
    ensures Counted(AsReply(cfg, dir, req.(padata := [pa]), now), pa, now, cfg.clockSkew)
  {
    var asked, wanted := Name(req.cname, cfg.realm), if req.sname == [] then Tgs(cfg) else Name(req.sname, cfg.realm);
    var client, server := dir.Find(asked).value, dir.Find(wanted).value;
    var canonical := req.body.options.canonicalize;
    ServeCounts(cfg, req, client, if canonical then client.canonical else asked,
                server, if canonical then server.canonical else wanted, now, pa);
  }

  // ----- Times -----

  /** A ticket runs as long as the limits allow, or to the end asked for if that comes first; and one that is
      asked to be renewable and may be is, up to the time asked for or the limit. RENEWABLE-OK stands in
      for an end that the limits do not allow, and then covers it as far as they allow. */
  lemma TimesExact(cfg: Config, body: Body, client: Rules, server: Rules, now: Time)
    requires TimesFor(cfg, body, client, server, now).Ok?
    ensures var t := TimesFor(cfg, body, client, server, now).value;
            var latest := t.startTime + EffectiveLife(client.maxTicketLife, server.maxTicketLife, cfg.maxTicketLife);
            var limit := t.startTime + EffectiveLife(client.maxRenewableLife, server.maxRenewableLife, cfg.maxRenewableLife);
            && t.endTime == (if body.till > UNIX_EPOCH && body.till < latest then body.till else latest)
            && (body.options.renewable && client.allowRenewable && server.allowRenewable ==>
                  var till := if body.rtime > UNIX_EPOCH && body.rtime < limit then body.rtime else limit;
                  (t.renewable <==> till > t.endTime) && (t.renewable ==> t.renewTill == till))
            && (!body.options.renewable && body.options.renewableOk && client.allowRenewable && server.allowRenewable
                && body.till > UNIX_EPOCH && body.till > latest ==>
                  var till := if body.till > limit then limit else body.till;
                  (t.renewable <==> till > t.endTime) && (t.renewable ==> t.renewTill == till))
  {
  }

  // ----- The TGS exchange -----

  /** The service a request leads to: the one it names in this realm, or the ticket-granting service of a
      realm with outbound trust. */
  ghost predicate LeadsTo(cfg: Config, dir: Directory, req: TgsRequest, id: int) {
    || (&& Answers(dir.names, req.target, id) && req.target.realm == cfg.realm && req.hostReferral.None?
        && !(req.target.IsTgs() && req.target.components[1] != cfg.realm))
    || exists remote :: remote in dir.outbound && Answers(dir.names, Name(["krbtgt", remote], cfg.realm), id)
  }

  /** What a TGS ticket is granted on: the step the options call for, a target, and what that step asks. */
  ghost predicate TgsGranted(cfg: Config, t: State, req: TgsRequest, e: Entry)
    requires t.dir.Valid()
  {
    Served(cfg, t, req, e) && Dispatched(req, e) && req.target.components != []
  }

  ghost predicate Served(cfg: Config, t: State, req: TgsRequest, e: Entry)
    requires t.dir.Valid()
  {
    && !e.origin.AsExchange? && !e.origin.RemoteKdc? && req.sealable
    && req.authentic && req.tgt.name.IsTgs() && req.tgt.index < |t.ledger| && e.origin.tgt == req.tgt.index
    && Answers(t.dir.names, req.tgt.name, t.ledger[req.tgt.index].ticket.sealedFor)
    && e.ticket.sealedFor in t.dir.principals && InUse(t.dir.principals[e.ticket.sealedFor], e.at)
    && (!e.origin.Validation? && e.ticket.client.realm == cfg.realm ==>
          t.dir.Find(e.ticket.client).Some? && InUse(t.dir.Find(e.ticket.client).value, e.at))
    && (e.origin.ServiceTicket? ==> LeadsTo(cfg, t.dir, req, e.ticket.sealedFor))
    && (e.origin.ServiceTicket? || e.origin.S4U2Proxy? ==> req.tgt.name.realm == cfg.realm || req.pathAccepted)
    && (!e.origin.Renewal? && !e.origin.Validation? ==>
          Decided(cfg, RulesFor(cfg, t.dir, e.ticket.client), t.dir.principals[e.ticket.sealedFor].rules, req.body,
                  e.ticket, e.at, e.origin.ServiceTicket?))
    && (e.origin.Renewal? ==>
          && e.ticket.startTime == e.at && req.target == req.tgt.name
          && var life := EffectiveLife(RulesFor(cfg, t.dir, e.ticket.client).maxTicketLife,
                                       t.dir.principals[e.ticket.sealedFor].rules.maxTicketLife, cfg.maxTicketLife);
             e.ticket.endTime == if e.at + life > e.ticket.renewTill then e.ticket.renewTill else e.at + life)
    && (e.origin.Validation? ==> req.target == req.tgt.name)
    && (e.origin.S4U2Self? ==>
          (e.ticket.flags.forwardable <==> e.origin.trusted && RulesFor(cfg, t.dir, e.ticket.client).allowForwardable))
  }

  /** Which step answers: renewal before validation, then delegation, then protocol transition; a ticket under
      another's session key is refused. */
  predicate Dispatched(req: TgsRequest, e: Entry) {
    var o := req.body.options;
    && (e.origin.Renewal? <==> o.renew)
    && (e.origin.Validation? <==> !o.renew && o.validate)
    && (!o.renew && !o.validate ==> !o.encTktInSkey)
    && (e.origin.S4U2Proxy? <==> !o.renew && !o.validate && o.cnameInAddlTkt)
    && (e.origin.S4U2Self? <==> !o.renew && !o.validate && !o.cnameInAddlTkt && req.forUser.Some?)
  }

  /** A service may act for a client: it has no list of those it may act for, or the client is on it. */
  predicate ActsFor(p: Principal, client: Name) {
    p.rules.impersonate == [] || exists i | 0 <= i < |p.rules.impersonate| :: Names.Names(p.rules.impersonate[i], client)
  }

  /** Protocol transition is answered exactly for a verified request by a service for itself, in the name of a
      client of this realm it may act for, when such a ticket can be issued. */
  lemma SelfServedIff(cfg: Config, dir: Directory, req: TgsRequest, tgt: Ticket, now: Time)
    requires dir.Valid() && req.forUser.Some?
    ensures S4U2SelfReply(cfg, dir, req, tgt, now).Ok? <==>
            && cfg.allowS4U && req.forUserVerified && req.target == tgt.client && dir.Find(tgt.client).Some?
            && req.forUser.value.realm == cfg.realm && ActsFor(dir.Find(tgt.client).value, req.forUser.value)
            && Issue(cfg, dir, req, req.forUser.value, req.target, None,
                     if dir.Find(tgt.client).value.rules.okToAuthAsDelegate then UnlessBarred else Never, now).Ok?
  {
  }

  /** Delegation is answered exactly to a service that lists the target and presents a FORWARDABLE ticket sealed
      for itself, in its window, with its PAC intact, of a client it may act for, when such a ticket can be
      issued. */
  lemma ProxyServedIff(cfg: Config, dir: Directory, ledger: Ledger, req: TgsRequest, tgt: Ticket, now: Time)
    requires dir.Valid()
    ensures S4U2ProxyReply(cfg, dir, ledger, req, tgt, now).Ok? <==>
            && cfg.allowS4U && req.evidence.Some? && dir.Find(tgt.client).Some?
            && var p := dir.Find(tgt.client).value;
            && (exists i | 0 <= i < |p.rules.delegateTo| :: Names.Names(p.rules.delegateTo[i], req.target))
            && req.evidence.value.name == tgt.client && req.evidence.value.index < |ledger| && req.evidencePacIntact
            && var inner := ledger[req.evidence.value.index].ticket;
            && inner.sealedFor == p.id && inner.flags.forwardable && !inner.flags.invalid && InWindow(cfg, inner, now)
            && ActsFor(p, inner.client)
            && Issue(cfg, dir, req, inner.client, req.target, Some(inner), Always, now).Ok?
  {
  }

  /** FORWARDABLE where the step decides it: always, by the client's rule alone, or never. */
  predicate Flagged(f: Forwardability, rules: Rules, t: Ticket) {
    && (f.Always? ==> t.flags.forwardable)
    && (f.UnlessBarred? ==> (t.flags.forwardable <==> rules.allowForwardable))
    && (f.Never? ==> !t.flags.forwardable)
  }

  /** What is decided once client and service are known is decided by their rules. */
  lemma DecideGrants(cfg: Config, req: TgsRequest, client: Name, target: Name, rules: Rules, server: Principal,
                     source: Option<Ticket>, f: Forwardability, now: Time)
    requires Decide(cfg, req, client, target, rules, server, source, f, now).Ok?
    ensures var t := Decide(cfg, req, client, target, rules, server, source, f, now).value;
            && t.client == client && t.sealedFor == server.id
            && (source.Some? ==> req.tgt.name.realm == cfg.realm || req.pathAccepted) && req.sealable && Flagged(f, rules, t)
            && Decided(cfg, rules, server.rules, req.body, t, now, f.AsRequested?)
  {
  }

  /** An issued ticket: its service and its client in use, and decided by their rules. */
  lemma IssueGrants(cfg: Config, dir: Directory, req: TgsRequest, client: Name, wanted: Name,
                    source: Option<Ticket>, f: Forwardability, now: Time)
    requires dir.Valid() && Issue(cfg, dir, req, client, wanted, source, f, now).Ok?
    ensures var t := Issue(cfg, dir, req, client, wanted, source, f, now).value;
            && t.client == client && t.sealedFor in dir.principals && Answers(dir.names, wanted, t.sealedFor)
            && InUse(dir.principals[t.sealedFor], now)
            && (client.realm == cfg.realm ==> dir.Find(client).Some? && InUse(dir.Find(client).value, now))
            && (source.Some? ==> req.tgt.name.realm == cfg.realm || req.pathAccepted) && req.sealable && Flagged(f, RulesFor(cfg, dir, client), t)
            && Decided(cfg, RulesFor(cfg, dir, client), dir.principals[t.sealedFor].rules, req.body, t, now, f.AsRequested?)
  {
    var server := Load(dir, wanted, UnknownServer, now).value;
    DecideGrants(cfg, req, client, if req.body.options.canonicalize then server.canonical else wanted,
                 LoadRules(cfg, dir, client, now).value, server, source, f, now);
    UsableIffInUse(server, now);
    if client.realm == cfg.realm { UsableIffInUse(Load(dir, client, UnknownClient, now).value, now); }
  }

  lemma ServiceGrants(cfg: Config, t: State, req: TgsRequest, tgt: Ticket, now: Time)
    requires Holds(cfg, t.dir, t.ledger, req, tgt, now) && ServiceReply(cfg, t.dir, req, tgt, now).Ok?
    ensures Served(cfg, t, req, ServiceReply(cfg, t.dir, req, tgt, now).value)
  {
    IssueGrants(cfg, t.dir, req, tgt.client, Referred(cfg, t.dir, req).value, Some(tgt), AsRequested, now);
    ReferredLeads(cfg, t.dir, req, ServiceReply(cfg, t.dir, req, tgt, now).value.ticket.sealedFor);
  }

  lemma ReferredLeads(cfg: Config, dir: Directory, req: TgsRequest, id: int)
    requires Referred(cfg, dir, req).Ok? && Answers(dir.names, Referred(cfg, dir, req).value, id)
    ensures LeadsTo(cfg, dir, req, id)
  {
    var t := req.target;
    if t.IsTgs() && t.components[1] != cfg.realm { assert t.components == ["krbtgt", t.components[1]]; }
  }

  lemma SelfGrants(cfg: Config, t: State, req: TgsRequest, tgt: Ticket, now: Time)
    requires Holds(cfg, t.dir, t.ledger, req, tgt, now) && req.forUser.Some? && S4U2SelfReply(cfg, t.dir, req, tgt, now).Ok?
    ensures Served(cfg, t, req, S4U2SelfReply(cfg, t.dir, req, tgt, now).value)
  {
    var e := S4U2SelfReply(cfg, t.dir, req, tgt, now).value;
    IssueGrants(cfg, t.dir, req, req.forUser.value, req.target, None, if e.origin.trusted then UnlessBarred else Never, now);
  }

  lemma ProxyGrants(cfg: Config, t: State, req: TgsRequest, tgt: Ticket, now: Time)
    requires Holds(cfg, t.dir, t.ledger, req, tgt, now) && S4U2ProxyReply(cfg, t.dir, t.ledger, req, tgt, now).Ok?
    ensures Served(cfg, t, req, S4U2ProxyReply(cfg, t.dir, t.ledger, req, tgt, now).value)
  {
    var inner := Open(t.dir, t.ledger, req.evidence.value).value;
    IssueGrants(cfg, t.dir, req, inner.client, req.target, Some(inner), Always, now);
  }

  lemma CopyGrants(cfg: Config, t: State, req: TgsRequest, tgt: Ticket, now: Time)
    requires Holds(cfg, t.dir, t.ledger, req, tgt, now)
    ensures RenewReply(cfg, t.dir, req, tgt, now).Ok? ==> Served(cfg, t, req, RenewReply(cfg, t.dir, req, tgt, now).value)
    ensures ValidateReply(cfg, t.dir, req, tgt, now).Ok? ==> Served(cfg, t, req, ValidateReply(cfg, t.dir, req, tgt, now).value)
  {
    var server := Load(t.dir, req.target, UnknownServer, now);
    if server.Ok? { UsableIffInUse(server.value, now); }
    var client := Load(t.dir, tgt.client, UnknownClient, now);
    if client.Ok? { UsableIffInUse(client.value, now); }
  }

  lemma TgsGrants(cfg: Config, t: State, req: TgsRequest, now: Time)
    requires t.dir.Valid() && now > ZERO_TIME && TgsReply(cfg, t.dir, t.ledger, req, now).Ok?
    ensures TgsGranted(cfg, t, req, TgsReply(cfg, t.dir, t.ledger, req, now).value)
  {
    var tgt := Authenticate(cfg, t.dir, t.ledger, req, now).value;
    var o := req.body.options;
    if o.renew || o.validate { CopyGrants(cfg, t, req, tgt, now); }
    else if o.cnameInAddlTkt { ProxyGrants(cfg, t, req, tgt, now); }
    else if req.forUser.Some? { SelfGrants(cfg, t, req, tgt, now); }
    else { ServiceGrants(cfg, t, req, tgt, now); }
  }

  /** A client of another realm is held to no limits of its own and may have any flag the service allows,
      but no postdating. */
  lemma RemoteClientIsHeldTo(cfg: Config, t: State, req: TgsRequest, e: Entry)
    requires t.dir.Valid() && Served(cfg, t, req, e) && e.origin.ServiceTicket? && e.ticket.client.realm != cfg.realm
    ensures var p := t.dir.principals[e.ticket.sealedFor].rules;
            && !e.ticket.flags.postdated && !e.ticket.flags.mayPostdate
            && (e.ticket.flags.forwardable <==> req.body.options.forwardable && p.allowForwardable)
            && (e.ticket.flags.proxiable <==> req.body.options.proxiable && p.allowProxiable)
            && e.ticket.endTime <= e.at + EffectiveLife(0, p.maxTicketLife, cfg.maxTicketLife)
  {
  }

  // ----- The password service -----

  /** A password change is applied exactly for a ticket under the password service's name that opens with its
      key, is INITIAL and not past its end, with a clock within the skew and a sound message, for the
      ticket's own client, whom the directory knows. */
  lemma PasswordIff(cfg: Config, dir: Directory, ledger: Ledger, req: PasswordRequest, now: Time)
    requires dir.Valid()
    ensures PasswordReply(cfg, dir, ledger, req, now).Ok? <==>
            && req.ticket.name.components == ["kadmin", "changepw"] && req.ticket.index < |ledger|
            && var t := ledger[req.ticket.index].ticket;
            && Answers(dir.names, req.ticket.name, t.sealedFor) && t.flags.initial
            && (t.endTime != ZERO_TIME ==> now <= t.endTime)
            && now <= req.ctime + cfg.clockSkew && req.ctime <= now + cfg.clockSkew && req.sound
            && (req.subject.Some? ==> req.subject.value == t.client) && dir.Find(t.client).Some?
    ensures PasswordReply(cfg, dir, ledger, req, now).Ok? ==>
              PasswordReply(cfg, dir, ledger, req, now).value == Change(ledger[req.ticket.index].ticket.client, req.ticket.index, now)
  {
  }

  // ----- Over runs -----

  /** The k-th event asked for this ticket and was granted it. */
  ghost predicate GrantedAt(cfg: Config, s: State, es: seq<Event>, k: nat, e: Entry)
    requires s.dir.Valid()
  {
    k < |es| && es[k].now == e.at &&
    var t := After(cfg, s, es[..k]);
    && t.dir.Valid()
    && match es[k].action
       case AsReq(req) => e.origin.AsExchange? && Granted(cfg, t.dir, req, e)
       case TgsReq(req) => TgsGranted(cfg, t, req, e)
       case _ => e.origin.RemoteKdc?
  }

  lemma MintsGrants(cfg: Config, t: State, ev: Event, e: Entry)
    requires Mints(cfg, t, ev, e) && e.at > ZERO_TIME
    ensures match ev.action
            case AsReq(req) => e.origin.AsExchange? && Granted(cfg, t.dir, req, e)
            case TgsReq(req) => TgsGranted(cfg, t, req, e)
            case _ => e.origin.RemoteKdc?
  {
    if ev.action.AsReq? { AsGrants(cfg, t.dir, ev.action.as_, e.at); }
    if ev.action.TgsReq? { TgsGrants(cfg, t, ev.action.tgs, e.at); }
  }

  /** Every ticket of a run was granted on a request: with an authentic TGT or with the pre-authentication
      the realm or the client demanded, to principals in use, with flags and times that are asked for
      and allowed, by the rules of that moment. */
  lemma EveryTicketWasGranted(cfg: Config, s: State, es: seq<Event>, i: nat)
    requires Initial(s) && IsRun(cfg, s, es) && i < |After(cfg, s, es).ledger|
    ensures exists k :: GrantedAt(cfg, s, es, k, After(cfg, s, es).ledger[i])
  {
    RunInv(cfg, s, es);
    var ledger := After(cfg, s, es).ledger;
    assert Lawful(cfg, s.dir.names, ledger, i);
    var k := MintedBy(cfg, s, es, i);
    MintsGrants(cfg, After(cfg, s, es[..k]), es[k], ledger[i]);
    assert GrantedAt(cfg, s, es, k, ledger[i]);
  }

  /** The k-th event is the password request that this change answered. */
  ghost predicate ChangedAt(cfg: Config, s: State, es: seq<Event>, k: nat, c: Change)
    requires s.dir.Valid()
  {
    && k < |es| && es[k].action.PasswordReq? && After(cfg, s, es[..k]).dir.Valid()
    && PasswordReply(cfg, After(cfg, s, es[..k]).dir, After(cfg, s, es[..k]).ledger, es[k].action.pw, es[k].now) == Ok(c)
  }

  lemma StepChanges(cfg: Config, s: State, e: Event)
    requires s.dir.Valid()
    ensures s.changes <= Step(cfg, s, e).changes && |Step(cfg, s, e).changes| <= |s.changes| + 1
    ensures |Step(cfg, s, e).changes| == |s.changes| + 1 ==>
              e.action.PasswordReq? && PasswordReply(cfg, s.dir, s.ledger, e.action.pw, e.now) == Ok(Step(cfg, s, e).changes[|s.changes|])
  {
  }

  lemma ChangedBefore(cfg: Config, s: State, es: seq<Event>, k: nat, c: Change)
    requires s.dir.Valid() && es != [] && ChangedAt(cfg, s, es[..|es| - 1], k, c)
    ensures ChangedAt(cfg, s, es, k, c)
  {
    assert es[..|es| - 1][..k] == es[..k];
  }

  /** Every password change of a run was asked for by a password request, and applied to what the ledger and
      the directory held then. */
  lemma {:induction false} EveryChangeWasAsked(cfg: Config, s: State, es: seq<Event>, i: nat)
    requires Initial(s) && IsRun(cfg, s, es) && i < |After(cfg, s, es).changes|
    ensures exists k :: ChangedAt(cfg, s, es, k, After(cfg, s, es).changes[i])
    decreases |es|
  {
    var before := es[..|es| - 1];
    var t := After(cfg, s, before);
    RunInv(cfg, s, before);
    StepChanges(cfg, t, es[|es| - 1]);
    if i < |t.changes| {
      EveryChangeWasAsked(cfg, s, before, i);
      var k :| ChangedAt(cfg, s, before, k, t.changes[i]);
      ChangedBefore(cfg, s, es, k, t.changes[i]);
    } else {
      assert ChangedAt(cfg, s, es, |es| - 1, After(cfg, s, es).changes[i]);
    }
  }

  /** Where the realm requires pre-authentication, every AS ticket of a run carries PRE-AUTHENT. */
  lemma RealmDemandsPreAuth(cfg: Config, s: State, es: seq<Event>, i: nat)
    requires Initial(s) && IsRun(cfg, s, es) && i < |After(cfg, s, es).ledger| && cfg.requirePreAuth
    ensures var e := After(cfg, s, es).ledger[i]; e.origin.AsExchange? ==> e.ticket.flags.preAuthent
  {
    EveryTicketWasGranted(cfg, s, es, i);
    var e := After(cfg, s, es).ledger[i];
    var k :| GrantedAt(cfg, s, es, k, e);
  }
}
