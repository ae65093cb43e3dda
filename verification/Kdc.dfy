/** The AS and TGS exchanges as functions from the ledger of tickets minted so far to the next one
    (internal/kdc/as.go, internal/kdc/tgs.go), and the password service that accepts a ticket
    (internal/kpasswd/server.go). */
module Kdc {
  import opened Names
  import opened Tickets

  /** Which step minted a ticket, with ledger positions of the tickets it was derived from. */
  datatype Origin =
    | AsExchange(preAuthVerified: bool)
    | ServiceTicket(tgt: nat)
    | S4U2Self(tgt: nat, trusted: bool)
    | S4U2Proxy(tgt: nat, evidence: nat)
    | Renewal(tgt: nat)
    | Validation(tgt: nat)
    | RemoteKdc

  datatype Entry = Entry(ticket: Ticket, origin: Origin, at: Time)
  type Ledger = seq<Entry>

  // ----- The AS exchange -----

  /** A pre-authentication datum. `plain` is what decrypting the timestamp yields: nothing when the
      key does not open it, and otherwise the timestamp, if one is there. */
  datatype PaData =
    | EncTimestamp(wellFormed: bool, keyHeld: bool, plain: Option<Option<Time>>)
    | OtherPa

  datatype AsRequest = AsRequest(
    realm: string, cname: seq<string>, sname: seq<string>, body: Body, padata: seq<PaData>,
    encTypes: bool, sealable: bool)

  /** The outcome of an AS exchange: the ticket or the refusal, and the authentication result
      recorded against the principal, if any. */
  datatype AsOutcome = AsOutcome(reply: Result<Entry>, recorded: Option<bool>)

  predicate WithinSkew(a: Time, b: Time, skew: nat) {
    a <= b + skew && b <= a + skew
  }

  function FirstTimestamp(padata: seq<PaData>): (r: Option<PaData>)
    ensures r.Some? ==> r.value.EncTimestamp? && r.value in padata
    ensures r.None? ==> forall pa <- padata :: pa.OtherPa?
  {
    if padata == [] then None
    else if padata[0].EncTimestamp? then Some(padata[0])
    else FirstTimestamp(padata[1..])
  }

  /** The client proved its key: the timestamp opened under it and lies within the clock skew. */
  predicate Verifies(pa: Option<PaData>, now: Time, skew: nat) {
    && pa.Some? && pa.value.EncTimestamp? && pa.value.wellFormed && pa.value.keyHeld
    && pa.value.plain.Some? && pa.value.plain.value.Some?
    && WithinSkew(now, pa.value.plain.value.value, skew)
  }

  /** Whether pre-authentication was done, or why the request stops; and a failure to record. */
  function PreAuth(cfg: Config, client: Principal, pa: Option<PaData>, now: Time): (Result<bool>, Option<bool>) {
    if pa.None? then
      (if cfg.requirePreAuth || client.requiresPreAuth then Err(PreAuthRequired) else Ok(false), None)
    else if pa.value.OtherPa? || !pa.value.wellFormed || !pa.value.keyHeld then (Err(PreAuthFailed), None)
    else if pa.value.plain.None? || pa.value.plain.value.None? then (Err(PreAuthFailed), Some(false))
    else if !WithinSkew(now, pa.value.plain.value.value, cfg.clockSkew) then (Err(Skew), None)
    else (Ok(true), Some(true))
  }

  function Tgs(cfg: Config): Name {
    Name(["krbtgt", cfg.realm], cfg.realm)
  }

  function AsReply(cfg: Config, dir: Directory, req: AsRequest, now: Time): (out: AsOutcome)
    requires dir.Valid()
  {
    if req.realm != cfg.realm then AsOutcome(Err(WrongRealm), None)
    else if req.cname == [] then AsOutcome(Err(UnknownClient), None)
    else
      var asked := Name(req.cname, cfg.realm);
      var wanted := if req.sname == [] then Tgs(cfg) else Name(req.sname, cfg.realm);
      match (dir.Find(asked), dir.Find(wanted))
      case (None, _) => AsOutcome(Err(UnknownClient), None)
      case (_, None) => AsOutcome(Err(UnknownServer), None)
      case (Some(client), Some(server)) =>
        var canonical := req.body.options.canonicalize;
        AsServe(cfg, req, client, if canonical then client.canonical else asked,
                server, if canonical then server.canonical else wanted, now)
  }

  /** The exchange once both principals are found: their status, then pre-authentication, then a ticket. */
  function AsServe(cfg: Config, req: AsRequest, client: Principal, clientName: Name,
                   server: Principal, serverName: Name, now: Time): AsOutcome
  {
    if client.StatusAt(now) != Usable then AsOutcome(Err(Unusable(client.StatusAt(now))), None)
    else if server.StatusAt(now) != Usable then AsOutcome(Err(Unusable(server.StatusAt(now))), None)
    else if client.PasswordExpired(now) && !serverName.IsChangePw() then AsOutcome(Err(KeyExpired), None)
    else if !req.encTypes then AsOutcome(Err(NoEncType), None)
    else
      var (done, recorded) := PreAuth(cfg, client, FirstTimestamp(req.padata), now);
      if done.Err? then AsOutcome(Err(done.code), recorded)
      else AsOutcome(AsMint(cfg, req, client, clientName, server, serverName, done.value, now), recorded)
  }

  function AsMint(cfg: Config, req: AsRequest, client: Principal, clientName: Name,
                  server: Principal, serverName: Name, preAuth: bool, now: Time): Result<Entry>
  {
    match TimesFor(cfg, req.body, client.rules, server.rules, now)
    case Err(code) => Err(code)
    case Ok(t) =>
      if !req.sealable then Err(NoEncType)
      else
        var flags := FlagsFor(req.body, client.rules, server.rules, t, true, preAuth);
        Ok(Entry(Ticket(clientName, serverName, server.id, flags, t.authTime, t.startTime, t.endTime, t.renewTill),
                 AsExchange(preAuth), now))
  }

  // ----- The TGS exchange -----

  /** A sealed ticket handed over under a name of the presenter's choosing: the name is not part of
      what the seal protects, and only the key of the principal it leads to opens the ticket. */
  datatype Presented = Presented(index: nat, name: Name)

  /** A TGS request. `authentic` stands for the authenticator: it opens, matches the ticket, is fresh
      and covers the body. `pathAccepted` is the transited-path decision, and `sealable` whether the
      enctypes and authorization data let the ticket be built. */
  datatype TgsRequest = TgsRequest(
    tgt: Presented, target: Name, body: Body,
    evidence: Option<Presented>, forUser: Option<Name>, forUserVerified: bool,
    hostReferral: Option<string>, authentic: bool, pathAccepted: bool, evidencePacIntact: bool, sealable: bool)

  function Open(dir: Directory, ledger: Ledger, p: Presented): (r: Result<Ticket>)
    requires dir.Valid()
    ensures r.Ok? ==>
              && p.index < |ledger|
              && r.value == ledger[p.index].ticket
              && Answers(dir.names, p.name, r.value.sealedFor)
  {
    match dir.Find(p.name)
    case None => Err(UnknownServer)
    case Some(holder) =>
      if p.index < |ledger| && ledger[p.index].ticket.sealedFor == holder.id
      then Ok(ledger[p.index].ticket)
      else Err(BadIntegrity)
  }

  /** Why a ticket cannot be used now, if it cannot. */
  function Refusal(t: Ticket, now: Time, skew: nat, allowInvalid: bool): Option<Code> {
    if t.startTime != ZERO_TIME && now + skew < t.startTime then Some(NotYetValid)
    else if t.endTime != ZERO_TIME && now - skew > t.endTime then Some(Expired)
    else if !allowInvalid && t.flags.invalid then Some(NotYetValid)
    else None
  }

  function Authenticate(cfg: Config, dir: Directory, ledger: Ledger, req: TgsRequest, now: Time): (r: Result<Ticket>)
    requires dir.Valid()
    ensures r.Ok? ==>
              && req.tgt.index < |ledger|
              && r.value == ledger[req.tgt.index].ticket
              && req.tgt.name.IsTgs() && Answers(dir.names, req.tgt.name, r.value.sealedFor)
              && Refusal(r.value, now, cfg.clockSkew, req.body.options.validate) == None
  {
    if !req.tgt.name.IsTgs() then Err(Policy)
    else
      match Open(dir, ledger, req.tgt)
      case Err(code) => Err(code)
      case Ok(tgt) =>
        if !req.authentic then Err(BadIntegrity)
        else match Refusal(tgt, now, cfg.clockSkew, req.body.options.validate)
             case Some(code) => Err(code)
             case None => Ok(tgt)
  }

  /** A principal that exists and may be used now. */
  function Load(dir: Directory, name: Name, missing: Code, now: Time): (r: Result<Principal>)
    requires dir.Valid()
    ensures r.Ok? ==> dir.Find(name) == Some(r.value) && r.value.StatusAt(now) == Usable
  {
    match dir.Find(name)
    case None => Err(missing)
    case Some(p) => if p.StatusAt(now) == Usable then Ok(p) else Err(Unusable(p.StatusAt(now)))
  }

  /** The rules a client is held to: its own, or the stand-in's for a client of another realm. */
  function LoadRules(cfg: Config, dir: Directory, name: Name, now: Time): Result<Rules>
    requires dir.Valid()
  {
    if name.realm != cfg.realm then Ok(STAND_IN)
    else match Load(dir, name, UnknownClient, now)
         case Err(code) => Err(code)
         case Ok(p) => Ok(p.rules)
  }

  datatype Forwardability = AsRequested | Always | UnlessBarred | Never

  function Forward(f: Forwardability, requested: bool, allowed: bool): bool {
    match f
    case AsRequested => requested
    case Always => true
    case UnlessBarred => allowed
    case Never => false
  }

  /** Applies policy to a request made in `client`'s name and decides the ticket. */
  function Issue(cfg: Config, dir: Directory, req: TgsRequest, client: Name, wanted: Name,
                 source: Option<Ticket>, forwardable: Forwardability, now: Time): Result<Ticket>
    requires dir.Valid()
  {
    match (Load(dir, wanted, UnknownServer, now), LoadRules(cfg, dir, client, now))
    case (Err(code), _) => Err(code)
    case (_, Err(code)) => Err(code)
    case (Ok(server), Ok(rules)) =>
      Decide(cfg, req, client, if req.body.options.canonicalize then server.canonical else wanted,
             rules, server, source, forwardable, now)
  }

  /** The ticket itself, once client and server are known to be usable. */
  function Decide(cfg: Config, req: TgsRequest, client: Name, target: Name, rules: Rules, server: Principal,
                  source: Option<Ticket>, forwardable: Forwardability, now: Time): Result<Ticket>
  {
    match TimesFor(cfg, req.body, rules, server.rules, now)
    case Err(code) => Err(code)
    case Ok(t) => Sealed(cfg, req, client, target, rules, server, source, forwardable, now, t)
  }

  /** And once its times are: clamped to the source ticket, with the flags and the authentication time. */
  function Sealed(cfg: Config, req: TgsRequest, client: Name, target: Name, rules: Rules, server: Principal,
                  source: Option<Ticket>, forwardable: Forwardability, now: Time, t: Times): Result<Ticket>
  {
    var end := if source.Some? && source.value.endTime != ZERO_TIME && t.endTime > source.value.endTime
               then source.value.endTime else t.endTime;
    var flags := FlagsFor(req.body, rules, server.rules, t, false, source.Some? && source.value.flags.preAuthent);
    var forward := Forward(forwardable, flags.forwardable, rules.allowForwardable);
    var authTime := if source.Some? && source.value.authTime != ZERO_TIME then source.value.authTime else now;
    if source.Some? && req.tgt.name.realm != cfg.realm && !req.pathAccepted then Err(PathNotAccepted)
    else if !req.sealable then Err(NoEncType)
    else Ok(Ticket(client, target, server.id, flags.(forwardable := forward), authTime, t.startTime, end, t.renewTill))
  }

  /** Where a request for a service leads: the service itself, or the ticket-granting service of the
      trusted realm it lives in. */
  function Referred(cfg: Config, dir: Directory, req: TgsRequest): Result<Name> {
    var t := req.target;
    if t.IsTgs() && t.components[1] != cfg.realm then
      if t.components[1] in dir.outbound then Ok(Name(t.components, cfg.realm)) else Err(UnknownServer)
    else if t.realm != cfg.realm then Referral(cfg, dir, t.realm)
    else if req.hostReferral.Some? then Referral(cfg, dir, req.hostReferral.value)
    else Ok(t)
  }

  function Referral(cfg: Config, dir: Directory, remote: string): Result<Name> {
    if remote in dir.outbound then Ok(Name(["krbtgt", remote], cfg.realm)) else Err(UnknownServer)
  }

  predicate Listed(entries: seq<string>, name: Name) {
    exists i | 0 <= i < |entries| :: Names.Names(entries[i], name)
  }

  predicate MayImpersonate(rules: Rules, subject: Name) {
    rules.impersonate == [] || Listed(rules.impersonate, subject)
  }

  function ServiceReply(cfg: Config, dir: Directory, req: TgsRequest, tgt: Ticket, now: Time): Result<Entry>
    requires dir.Valid()
  {
    match Referred(cfg, dir, req)
    case Err(code) => Err(code)
    case Ok(target) =>
      Minted(Issue(cfg, dir, req, tgt.client, target, Some(tgt), AsRequested, now), ServiceTicket(req.tgt.index), now)
  }

  function S4U2SelfReply(cfg: Config, dir: Directory, req: TgsRequest, tgt: Ticket, now: Time): Result<Entry>
    requires dir.Valid() && req.forUser.Some?
  {
    var subject := req.forUser.value;
    if !cfg.allowS4U then Err(BadOption)
    else if !req.forUserVerified then Err(Modified)
    else if req.target != tgt.client then Err(BadOption)
    else match dir.Find(tgt.client)
         case None => Err(UnknownClient)
         case Some(requester) =>
           if subject.realm != cfg.realm then Err(Policy)
           else if !MayImpersonate(requester.rules, subject) then Err(BadOption)
           else
             var trusted := requester.rules.okToAuthAsDelegate;
             Minted(Issue(cfg, dir, req, subject, req.target, None, if trusted then UnlessBarred else Never, now),
                    S4U2Self(req.tgt.index, trusted), now)
  }

  function S4U2ProxyReply(cfg: Config, dir: Directory, ledger: Ledger, req: TgsRequest, tgt: Ticket, now: Time): Result<Entry>
    requires dir.Valid()
  {
    if !cfg.allowS4U || req.evidence.None? then Err(BadOption)
    else match dir.Find(tgt.client)
         case None => Err(UnknownClient)
         case Some(requester) =>
           if !Listed(requester.rules.delegateTo, req.target) then Err(BadOption)
           else if req.evidence.value.name != tgt.client then Err(BadOption)
           else match Open(dir, ledger, req.evidence.value)
                case Err(code) => Err(code)
                case Ok(inner) =>
                  if !inner.flags.forwardable then Err(BadOption)
                  else if Refusal(inner, now, cfg.clockSkew, false).Some? then
                    Err(Refusal(inner, now, cfg.clockSkew, false).value)
                  else if !req.evidencePacIntact then Err(Modified)
                  else if !MayImpersonate(requester.rules, inner.client) then Err(BadOption)
                  else Minted(Issue(cfg, dir, req, inner.client, req.target, Some(inner), Always, now),
                              S4U2Proxy(req.tgt.index, req.evidence.value.index), now)
  }

  function RenewReply(cfg: Config, dir: Directory, req: TgsRequest, tgt: Ticket, now: Time): Result<Entry>
    requires dir.Valid()
  {
    if !tgt.flags.renewable then Err(BadOption)
    else if tgt.renewTill == ZERO_TIME || now >= tgt.renewTill then Err(Expired)
    else if req.target != req.tgt.name then Err(BadOption)
    else match (Load(dir, req.target, UnknownServer, now), LoadRules(cfg, dir, tgt.client, now))
         case (Err(code), _) => Err(code)
         case (_, Err(code)) => Err(code)
         case (Ok(server), Ok(rules)) =>
           var end := now + EffectiveLife(rules.maxTicketLife, server.rules.maxTicketLife, cfg.maxTicketLife);
           if !req.sealable then Err(NoEncType)
           else Ok(Entry(tgt.(server := req.target, sealedFor := server.id,
                              flags := tgt.flags.(initial := false),
                              startTime := now,
                              endTime := if end > tgt.renewTill then tgt.renewTill else end),
                         Renewal(req.tgt.index), now))
  }

  function ValidateReply(cfg: Config, dir: Directory, req: TgsRequest, tgt: Ticket, now: Time): Result<Entry>
    requires dir.Valid()
  {
    if !tgt.flags.invalid then Err(BadOption)
    else if tgt.startTime != ZERO_TIME && now + cfg.clockSkew < tgt.startTime then Err(NotYetValid)
    else if req.target != req.tgt.name then Err(BadOption)
    else match Load(dir, req.target, UnknownServer, now)
         case Err(code) => Err(code)
         case Ok(server) =>
           if !req.sealable then Err(NoEncType)
           else Ok(Entry(tgt.(server := req.target, sealedFor := server.id, flags := tgt.flags.(invalid := false)),
                         Validation(req.tgt.index), now))
  }

  function Minted(t: Result<Ticket>, origin: Origin, now: Time): Result<Entry> {
    match t
    case Err(code) => Err(code)
    case Ok(ticket) => Ok(Entry(ticket, origin, now))
  }

  /** The whole TGS exchange: authenticate the ticket presented, then dispatch on the options. */
  function TgsReply(cfg: Config, dir: Directory, ledger: Ledger, req: TgsRequest, now: Time): Result<Entry>
    requires dir.Valid()
  {
    match Authenticate(cfg, dir, ledger, req, now)
    case Err(code) => Err(code)
    case Ok(tgt) =>
      var o := req.body.options;
      if req.target.components == [] then Err(UnknownServer)
      else if o.renew then RenewReply(cfg, dir, req, tgt, now)
      else if o.validate then ValidateReply(cfg, dir, req, tgt, now)
      else if o.encTktInSkey then Err(BadOption)
      else if o.cnameInAddlTkt then S4U2ProxyReply(cfg, dir, ledger, req, tgt, now)
      else if req.forUser.Some? then S4U2SelfReply(cfg, dir, req, tgt, now)
      else ServiceReply(cfg, dir, req, tgt, now)
  }

  // ----- The password service -----

  /** A request to the password service: a ticket under a name of the sender's choosing, and the
      principal whose password should change. `sound` stands for the parts of the message that
      either decrypt and parse or do not, and for the password rules. */
  datatype PasswordRequest = PasswordRequest(ticket: Presented, ctime: Time, subject: Option<Name>, sound: bool)

  /** One password change the service applied: whose, and on the strength of which ticket. */
  datatype Change = Change(subject: Name, ticket: nat, at: Time)

  function PasswordReply(cfg: Config, dir: Directory, ledger: Ledger, req: PasswordRequest, now: Time): Result<Change>
    requires dir.Valid()
  {
    if !req.ticket.name.IsChangePw() then Err(Policy)
    else match Open(dir, ledger, req.ticket)
         case Err(code) => Err(code)
         case Ok(t) =>
           var subject := if req.subject.Some? then req.subject.value else t.client;
           if !t.flags.initial then Err(Policy)
           else if t.endTime != ZERO_TIME && now > t.endTime then Err(Expired)
           else if !WithinSkew(now, req.ctime, cfg.clockSkew) then Err(Skew)
           else if !req.sound then Err(Modified)
           else if subject != t.client then Err(Policy)
           else match dir.Find(subject)
                case None => Err(UnknownClient)
                case Some(_) => Ok(Change(subject, req.ticket.index, now))
  }
}
