/** Tickets, the principals they are issued to, and the policy that decides their times and flags
    (internal/kdc/ticket.go, internal/store/model.go). */
module Tickets {
  import opened Names

  datatype Option<+T> = None | Some(value: T)

  /** Why a request was refused. */
  datatype Code =
    | Policy | UnknownServer | UnknownClient | BadIntegrity | NotYetValid | Expired
    | BadOption | CannotPostdate | NeverValid | Modified | NoEncType | PathNotAccepted
    | WrongRealm | KeyExpired | PreAuthRequired | PreAuthFailed | Skew | Unusable(Status)

  datatype Result<+T> = Ok(value: T) | Err(code: Code)

  /** Seconds, the resolution of a KerberosTime. Zero is the zero instant of the first year, which
      the source reads as "not given"; real clocks are far past it. */
  type Time = nat
  const ZERO_TIME: Time := 0
  const UNIX_EPOCH: Time := 62_135_596_800

  datatype Options = Options(
    forwardable: bool, proxiable: bool, allowPostdate: bool, postdated: bool, renewable: bool,
    renewableOk: bool, canonicalize: bool, encTktInSkey: bool, cnameInAddlTkt: bool,
    renew: bool, validate: bool)

  datatype Body = Body(options: Options, from: Time, till: Time, rtime: Time)

  datatype Flags = Flags(
    initial: bool, preAuthent: bool, forwardable: bool, proxiable: bool, mayPostdate: bool,
    renewable: bool, postdated: bool, invalid: bool, okAsDelegate: bool)

  /** A minted ticket: `server` is the name it was issued under and `sealedFor` the principal whose
      key seals it. Only the sealed part is protected; the outer name travels in the clear. */
  datatype Ticket = Ticket(
    client: Name, server: Name, sealedFor: int, flags: Flags,
    authTime: Time, startTime: Time, endTime: Time, renewTill: Time)

  /** What an administrator decides about a principal. A life of zero means "the realm's default". */
  datatype Rules = Rules(
    allowForwardable: bool, allowProxiable: bool, allowRenewable: bool, allowPostdate: bool,
    okAsDelegate: bool, okToAuthAsDelegate: bool,
    delegateTo: seq<string>, impersonate: seq<string>,
    maxTicketLife: int, maxRenewableLife: int)

  datatype Status = Usable | Disabled | AccountExpired | LockedOut | NoKeys

  datatype Principal = Principal(
    id: int, canonical: Name, rules: Rules, requiresPreAuth: bool,
    enabled: bool, expiresAt: Option<Time>, lockedUntil: Option<Time>,
    passwordExpiresAt: Option<Time>, hasKeys: bool)
  {
    function StatusAt(t: Time): Status {
      if !enabled then Disabled
      else if expiresAt.Some? && t >= expiresAt.value then AccountExpired
      else if lockedUntil.Some? && t < lockedUntil.value then LockedOut
      else if !hasKeys then NoKeys
      else Usable
    }

    predicate PasswordExpired(t: Time) {
      passwordExpiresAt.Some? && t >= passwordExpiresAt.value
    }
  }

  /** Every name and alias a principal answers to, and the principal rows behind them. */
  type NameTable = map<(string, string), int>

  datatype Directory = Directory(names: NameTable, principals: map<int, Principal>, outbound: set<string>) {

    /** Each name leads to one stored principal of its own realm, and a principal's canonical name
        leads to itself. */
    ghost predicate Valid() {
      && (forall key <- names :: names[key] in principals && principals[names[key]].canonical.realm == key.1)
      && (forall id <- principals ::
            && principals[id].id == id
            && Key(principals[id].canonical) in names
            && names[Key(principals[id].canonical)] == id)
    }

    function Find(name: Name): (r: Option<Principal>)
      requires Valid()
      ensures r.Some? ==> Answers(names, name, r.value.id) && r.value == principals[r.value.id]
    {
      if Key(name) in names then Some(principals[names[Key(name)]]) else None
    }
  }

  function Key(name: Name): (string, string) {
    (name.Principal(), name.realm)
  }

  predicate Answers(names: NameTable, name: Name, id: int) {
    Key(name) in names && names[Key(name)] == id
  }

  /** The principal can be reached by a ticket-granting name, so a ticket sealed for it can be
      presented as a TGT. */
  ghost predicate IsTgsPrincipal(names: NameTable, id: int) {
    exists name: Name :: name.IsTgs() && Answers(names, name, id)
  }

  datatype Config = Config(
    realm: string, maxTicketLife: nat, maxRenewableLife: nat, clockSkew: nat,
    requirePreAuth: bool, allowS4U: bool)

  /** The policy a client from another realm is held to. */
  const STAND_IN := Rules(true, true, true, false, false, false, [], [], 0, 0)

  predicate IsRequested(t: Time) {
    t > UNIX_EPOCH
  }

  function Tighten(limit: nat, life: int): nat {
    if 0 < life < limit then life else limit
  }

  /** The shortest of the realm's limit and whichever of the two principals' limits are set. */
  function EffectiveLife(client: int, server: int, realm: nat): (life: nat)
    ensures life <= realm
    ensures 0 < client ==> life <= client
    ensures 0 < server ==> life <= server
    ensures life == realm || (life == client && 0 < client) || (life == server && 0 < server)
  {
    Tighten(Tighten(realm, client), server)
  }

  datatype Times = Times(
    authTime: Time, startTime: Time, endTime: Time, renewTill: Time, renewable: bool, postdated: bool)

  function RenewLimit(body: Body, client: Rules, server: Rules, start: Time, end: Time, maxRenew: int): Option<int> {
    var limit := start + maxRenew;
    if !client.allowRenewable || !server.allowRenewable then None
    else if body.options.renewable then
      Some(if IsRequested(body.rtime) && body.rtime < limit then body.rtime else limit)
    else if body.options.renewableOk && IsRequested(body.till) && body.till > end then
      Some(if body.till > limit then limit else body.till)
    else None
  }

  /** The validity window and renewal limit policy allows for a request. */
  function TimesFor(cfg: Config, body: Body, client: Rules, server: Rules, now: Time): (r: Result<Times>)
    ensures r.Ok? ==>
              var t := r.value;
              && t.authTime == now
              && t.startTime == (if t.postdated then body.from else now)
              && (t.postdated ==> client.allowPostdate && body.options.postdated && body.from != ZERO_TIME)
              && t.startTime < t.endTime <=
                 t.startTime + EffectiveLife(client.maxTicketLife, server.maxTicketLife, cfg.maxTicketLife)
              && (IsRequested(body.till) ==> t.endTime <= body.till)
              && (t.renewable ==>
                    && client.allowRenewable && server.allowRenewable
                    && (body.options.renewable && IsRequested(body.rtime) ==> t.renewTill <= body.rtime)
                    && t.endTime < t.renewTill
                    && t.renewTill <= t.startTime +
                       EffectiveLife(client.maxRenewableLife, server.maxRenewableLife, cfg.maxRenewableLife))
              && (!t.renewable ==> t.renewTill == ZERO_TIME)
  {
    var postdated := body.options.postdated && body.from != ZERO_TIME;
    if postdated && !client.allowPostdate then Err(BadOption)
    else if !postdated && body.from != ZERO_TIME && body.from > now + cfg.clockSkew then Err(CannotPostdate)
    else
      var start := if postdated then body.from else now;
      var latest := start + EffectiveLife(client.maxTicketLife, server.maxTicketLife, cfg.maxTicketLife);
      var end: int := if IsRequested(body.till) && body.till < latest then body.till else latest;
      if end <= start then Err(NeverValid)
      else
        var maxRenew := EffectiveLife(client.maxRenewableLife, server.maxRenewableLife, cfg.maxRenewableLife);
        match RenewLimit(body, client, server, start, end, maxRenew)
        case Some(till) =>
          if till > end then Ok(Times(now, start, end, till, true, postdated))
          else Ok(Times(now, start, end, ZERO_TIME, false, postdated))
        case None => Ok(Times(now, start, end, ZERO_TIME, false, postdated))
  }

  /** The flags policy allows: a flag asked for but denied is left clear. */
  function FlagsFor(body: Body, client: Rules, server: Rules, t: Times, initial: bool, preAuth: bool): Flags {
    Flags(initial := initial,
          preAuthent := preAuth,
          forwardable := body.options.forwardable && client.allowForwardable && server.allowForwardable,
          proxiable := body.options.proxiable && client.allowProxiable && server.allowProxiable,
          mayPostdate := body.options.allowPostdate && client.allowPostdate,
          renewable := t.renewable,
          postdated := t.postdated,
          invalid := t.postdated,
          okAsDelegate := server.okAsDelegate)
  }
}
