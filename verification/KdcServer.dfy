/** The KDC as the code runs it: handlers that work out times and flags step by step and mint tickets,
    each proved to do what the exchange functions say. */
module KdcServer {
  import opened Names
  import opened Tickets
  import opened Kdc
  import opened KdcRuns

  /** The shortest limit, tightened one principal at a time. */
  method ShortestLife(client: int, server: int, realm: nat) returns (out: nat)
    ensures out == EffectiveLife(client, server, realm)
  {
    out := realm;
    var lives := [client, server];
    for i := 0 to 2
      invariant out == (if i == 0 then realm else if i == 1 then Tighten(realm, client) else EffectiveLife(client, server, realm))
    {
      if lives[i] > 0 && lives[i] < out {
        out := lives[i];
      }
    }
    if out <= 0 {
      out := realm;
    }
  }

  method ComputeTimes(cfg: Config, body: Body, client: Rules, server: Rules, now: Time) returns (r: Result<Times>)
    ensures r == TimesFor(cfg, body, client, server, now)
  {
    var t := Times(now, now, ZERO_TIME, ZERO_TIME, false, false);
    if body.options.postdated && body.from != ZERO_TIME {
      if !client.allowPostdate {
        return Err(BadOption);
      }
      t := t.(startTime := body.from, postdated := true);
    } else if body.from != ZERO_TIME && body.from > now + cfg.clockSkew {
      return Err(CannotPostdate);
    }

    var maxLife := ShortestLife(client.maxTicketLife, server.maxTicketLife, cfg.maxTicketLife);
    t := t.(endTime := t.startTime + maxLife);
    if IsRequested(body.till) && body.till < t.endTime {
      t := t.(endTime := body.till);
    }
    if t.endTime <= t.startTime {
      return Err(NeverValid);
    }

    var maxRenew := ShortestLife(client.maxRenewableLife, server.maxRenewableLife, cfg.maxRenewableLife);
    var both := client.allowRenewable && server.allowRenewable;
    if body.options.renewable && both {
      t := t.(renewable := true, renewTill := t.startTime + maxRenew);
      if IsRequested(body.rtime) && body.rtime < t.renewTill {
        t := t.(renewTill := body.rtime);
      }
    } else if body.options.renewableOk && both && IsRequested(body.till) && body.till > t.endTime {
      t := t.(renewable := true, renewTill := body.till);
      if t.renewTill > t.startTime + maxRenew {
        t := t.(renewTill := t.startTime + maxRenew);
      }
    }
    if t.renewable && t.renewTill <= t.endTime {
      t := t.(renewable := false, renewTill := ZERO_TIME);
    }
    r := Ok(t);
  }

  /** Sets the flags one at a time, each only if it was asked for and is allowed. */
  method TicketFlags(body: Body, client: Rules, server: Rules, t: Times, initial: bool, preAuth: bool) returns (f: Flags)
    ensures f == FlagsFor(body, client, server, t, initial, preAuth)
  {
    var forwardable, proxiable, mayPostdate, invalid := false, false, false, false;
    if body.options.forwardable && client.allowForwardable && server.allowForwardable { forwardable := true; }
    if body.options.proxiable && client.allowProxiable && server.allowProxiable { proxiable := true; }
    if body.options.allowPostdate && client.allowPostdate { mayPostdate := true; }
    if t.postdated { invalid := true; }
    f := Flags(initial, preAuth, forwardable, proxiable, mayPostdate, t.renewable, t.postdated, invalid, server.okAsDelegate);
  }

  /** Scans a delegation or impersonation list for a name. */
  method ScanList(entries: seq<string>, name: Name) returns (found: bool)
    ensures found == Listed(entries, name)
  {
    for i := 0 to |entries|
      invariant forall k | 0 <= k < i :: !Names.Names(entries[k], name)
    {
      if Names.Names(entries[i], name) {
        return true;
      }
    }
    found := false;
  }

  /** Finds the first encrypted timestamp among the pre-authentication data. */
  method FindTimestamp(padata: seq<PaData>) returns (pa: Option<PaData>)
    ensures pa == FirstTimestamp(padata)
  {
    for i := 0 to |padata|
      invariant FirstTimestamp(padata) == FirstTimestamp(padata[i..])
    {
      if padata[i].EncTimestamp? {
        return Some(padata[i]);
      }
    }
    pa := None;
  }

  /** A KDC over a directory. `ledger` holds every ticket in circulation that it may be shown. */
  /** The steps that decide FORWARDABLE themselves overwrite what the request got. */
  method OverrideForwardable(f: Forwardability, asked: bool, allowed: bool) returns (out: bool)
    ensures out == Forward(f, asked, allowed)
  {
    out := asked;
    match f {
      case AsRequested =>
      case Always => out := true;
      case UnlessBarred => out := allowed;
      case Never => out := false;
    }
  }

  class Server {
    const cfg: Config
    var dir: Directory
    var ledger: Ledger

    constructor (cfg: Config, dir: Directory)
      requires dir.Valid()
      ensures this.cfg == cfg && this.dir == dir && ledger == []
    {
      this.cfg := cfg;
      this.dir := dir;
      ledger := [];
    }

    ghost predicate Valid()
      reads this
    {
      dir.Valid() && AllLawful(cfg, dir.names, ledger)
    }

    /** Applies policy to a request: times, then the clamp to the source ticket, then flags. */
    method IssueTicket(req: TgsRequest, client: Name, wanted: Name, source: Option<Ticket>, f: Forwardability, now: Time)
      returns (r: Result<Ticket>)
      requires dir.Valid()
      ensures r == Issue(cfg, dir, req, client, wanted, source, f, now)
    {
      var loaded := Load(dir, wanted, UnknownServer, now);
      if loaded.Err? { return Err(loaded.code); }
      var server := loaded.value;
      var target := wanted;
      if req.body.options.canonicalize { target := server.canonical; }
      var rules := LoadRules(cfg, dir, client, now);
      if rules.Err? { return Err(rules.code); }

      r := DecideTicket(req, client, target, rules.value, server, source, f, now);
    }

    method DecideTicket(req: TgsRequest, client: Name, target: Name, rules: Rules, server: Principal,
                        source: Option<Ticket>, f: Forwardability, now: Time)
      returns (r: Result<Ticket>)
      ensures r == Decide(cfg, req, client, target, rules, server, source, f, now)
    {
      var computed := ComputeTimes(cfg, req.body, rules, server.rules, now);
      if computed.Err? { return Err(computed.code); }
      r := SealTicket(req, client, target, rules, server, source, f, now, computed.value);
    }

    method SealTicket(req: TgsRequest, client: Name, target: Name, rules: Rules, server: Principal,
                      source: Option<Ticket>, f: Forwardability, now: Time, times: Times)
      returns (r: Result<Ticket>)
      ensures r == Sealed(cfg, req, client, target, rules, server, source, f, now, times)
    {
      var end := times.endTime;
      if source.Some? && source.value.endTime != ZERO_TIME && end > source.value.endTime {
        end := source.value.endTime;
      }

      var flags := TicketFlags(req.body, rules, server.rules, times, false, source.Some? && source.value.flags.preAuthent);
      var forwardable := OverrideForwardable(f, flags.forwardable, rules.allowForwardable);
      flags := flags.(forwardable := forwardable);

      var authTime := now;
      if source.Some? && source.value.authTime != ZERO_TIME { authTime := source.value.authTime; }
      if source.Some? && req.tgt.name.realm != cfg.realm && !req.pathAccepted { return Err(PathNotAccepted); }
      if !req.sealable { return Err(NoEncType); }
      r := Ok(Ticket(client, target, server.id, flags, authTime, times.startTime, end, times.renewTill));
    }

    method IssueS4U2Self(req: TgsRequest, tgt: Ticket, now: Time) returns (r: Result<Entry>)
      requires dir.Valid() && req.forUser.Some?
      ensures r == S4U2SelfReply(cfg, dir, req, tgt, now)
    {
      var subject := req.forUser.value;
      if !cfg.allowS4U { return Err(BadOption); }
      if !req.forUserVerified { return Err(Modified); }
      if req.target != tgt.client { return Err(BadOption); }
      var requester := dir.Find(tgt.client);
      if requester.None? { return Err(UnknownClient); }
      if subject.realm != cfg.realm { return Err(Policy); }
      if requester.value.rules.impersonate != [] {
        var listed := ScanList(requester.value.rules.impersonate, subject);
        if !listed { return Err(BadOption); }
      }
      var forwardable := Never;
      if requester.value.rules.okToAuthAsDelegate { forwardable := UnlessBarred; }
      var t := IssueTicket(req, subject, req.target, None, forwardable, now);
      r := Minted(t, S4U2Self(req.tgt.index, requester.value.rules.okToAuthAsDelegate), now);
    }

    method IssueS4U2Proxy(req: TgsRequest, tgt: Ticket, now: Time) returns (r: Result<Entry>)
      requires dir.Valid()
      ensures r == S4U2ProxyReply(cfg, dir, ledger, req, tgt, now)
    {
      if !cfg.allowS4U || req.evidence.None? { return Err(BadOption); }
      var requester := dir.Find(tgt.client);
      if requester.None? { return Err(UnknownClient); }
      var delegates := ScanList(requester.value.rules.delegateTo, req.target);
      if !delegates { return Err(BadOption); }
      if req.evidence.value.name != tgt.client { return Err(BadOption); }
      var evidence := Open(dir, ledger, req.evidence.value);
      if evidence.Err? { return Err(evidence.code); }
      if !evidence.value.flags.forwardable { return Err(BadOption); }
      var refusal := Refusal(evidence.value, now, cfg.clockSkew, false);
      if refusal.Some? { return Err(refusal.value); }
      if !req.evidencePacIntact { return Err(Modified); }
      if requester.value.rules.impersonate != [] {
        var listed := ScanList(requester.value.rules.impersonate, evidence.value.client);
        if !listed { return Err(BadOption); }
      }
      var t := IssueTicket(req, evidence.value.client, req.target, Some(evidence.value), Always, now);
      r := Minted(t, S4U2Proxy(req.tgt.index, req.evidence.value.index), now);
    }

    method RenewTicket(req: TgsRequest, tgt: Ticket, now: Time) returns (r: Result<Entry>)
      requires dir.Valid()
      ensures r == RenewReply(cfg, dir, req, tgt, now)
    {
      if !tgt.flags.renewable { return Err(BadOption); }
      if tgt.renewTill == ZERO_TIME || now >= tgt.renewTill { return Err(Expired); }
      if req.target != req.tgt.name { return Err(BadOption); }
      var server := Load(dir, req.target, UnknownServer, now);
      if server.Err? { return Err(server.code); }
      var rules := LoadRules(cfg, dir, tgt.client, now);
      if rules.Err? { return Err(rules.code); }
      var life := ShortestLife(rules.value.maxTicketLife, server.value.rules.maxTicketLife, cfg.maxTicketLife);
      var end := now + life;
      if end > tgt.renewTill { end := tgt.renewTill; }
      var flags := tgt.flags;
      flags := flags.(initial := false);
      if !req.sealable { return Err(NoEncType); }
      r := Ok(Entry(Ticket(tgt.client, req.target, server.value.id, flags, tgt.authTime, now, end, tgt.renewTill),
                    Renewal(req.tgt.index), now));
    }

    /** The TGS exchange. A ticket is minted exactly when the exchange function mints it, and a KDC
        whose tickets were all lawful still has only lawful tickets. */
    method HandleTgsReq(req: TgsRequest, now: Time) returns (r: Result<Ticket>)
      requires Valid() && now > ZERO_TIME
      modifies this`ledger
      ensures Valid()
      ensures var reply := TgsReply(cfg, dir, old(ledger), req, now);
              && ledger == (if reply.Ok? then old(ledger) + [reply.value] else old(ledger))
              && r == (if reply.Ok? then Ok(reply.value.ticket) else Err(reply.code))
    {
      var auth := Authenticate(cfg, dir, ledger, req, now);
      if auth.Err? { return Err(auth.code); }
      var tgt := auth.value;
      if req.target.components == [] { return Err(UnknownServer); }

      var minted: Result<Entry>;
      var o := req.body.options;
      if o.renew {
        minted := RenewTicket(req, tgt, now);
      } else if o.validate {
        minted := ValidateReply(cfg, dir, req, tgt, now);
      } else if o.encTktInSkey {
        minted := Err(BadOption);
      } else if o.cnameInAddlTkt {
        minted := IssueS4U2Proxy(req, tgt, now);
      } else if req.forUser.Some? {
        minted := IssueS4U2Self(req, tgt, now);
      } else {
        var target := Referred(cfg, dir, req);
        if target.Err? { return Err(target.code); }
        var t := IssueTicket(req, tgt.client, target.value, Some(tgt), AsRequested, now);
        minted := Minted(t, ServiceTicket(req.tgt.index), now);
      }
      if minted.Err? { return Err(minted.code); }
      TgsMints(cfg, dir, ledger, req, now);
      Append(minted.value);
      r := Ok(minted.value.ticket);
    }

    /** The AS exchange, with the authentication result it records. */
    method HandleAsReq(req: AsRequest, now: Time) returns (r: Result<Ticket>, recorded: Option<bool>)
      requires Valid() && now > ZERO_TIME
      modifies this`ledger
      ensures Valid()
      ensures var out := AsReply(cfg, dir, req, now);
              && recorded == out.recorded
              && ledger == (if out.reply.Ok? then old(ledger) + [out.reply.value] else old(ledger))
              && r == (if out.reply.Ok? then Ok(out.reply.value.ticket) else Err(out.reply.code))
    {
      if req.realm != cfg.realm { return Err(WrongRealm), None; }
      if req.cname == [] { return Err(UnknownClient), None; }
      var clientName := Name(req.cname, cfg.realm);
      var serverName := Tgs(cfg);
      if req.sname != [] { serverName := Name(req.sname, cfg.realm); }
      var client := dir.Find(clientName);
      if client.None? { return Err(UnknownClient), None; }
      var server := dir.Find(serverName);
      if server.None? { return Err(UnknownServer), None; }
      if req.body.options.canonicalize {
        clientName := client.value.canonical;
        serverName := server.value.canonical;
      }
      var out := ServeInitial(req, client.value, clientName, server.value, serverName, now);
      recorded := out.recorded;
      if out.reply.Err? { return Err(out.reply.code), recorded; }
      AsMints(cfg, dir, ledger, req, now);
      Append(out.reply.value);
      r := Ok(out.reply.value.ticket);
    }

    method ServeInitial(req: AsRequest, client: Principal, clientName: Name, server: Principal, serverName: Name, now: Time)
      returns (out: AsOutcome)
      ensures out == AsServe(cfg, req, client, clientName, server, serverName, now)
    {
      var status := client.StatusAt(now);
      if status != Usable { return AsOutcome(Err(Unusable(status)), None); }
      status := server.StatusAt(now);
      if status != Usable { return AsOutcome(Err(Unusable(status)), None); }
      if client.PasswordExpired(now) && !serverName.IsChangePw() { return AsOutcome(Err(KeyExpired), None); }
      if !req.encTypes { return AsOutcome(Err(NoEncType), None); }
      var pa := FindTimestamp(req.padata);
      var (done, recorded) := PreAuth(cfg, client, pa, now);
      if done.Err? { return AsOutcome(Err(done.code), recorded); }
      var minted := MintInitial(req, client, clientName, server, serverName, done.value, now);
      out := AsOutcome(minted, recorded);
    }

    method MintInitial(req: AsRequest, client: Principal, clientName: Name, server: Principal, serverName: Name,
                       preAuth: bool, now: Time)
      returns (r: Result<Entry>)
      ensures r == AsMint(cfg, req, client, clientName, server, serverName, preAuth, now)
    {
      var computed := ComputeTimes(cfg, req.body, client.rules, server.rules, now);
      if computed.Err? { return Err(computed.code); }
      var t := computed.value;
      var flags := TicketFlags(req.body, client.rules, server.rules, t, true, preAuth);
      if !req.sealable { return Err(NoEncType); }
      r := Ok(Entry(Ticket(clientName, serverName, server.id, flags, t.authTime, t.startTime, t.endTime, t.renewTill),
                    AsExchange(preAuth), now));
    }

    method Append(e: Entry)
      requires Valid() && Lawful(cfg, dir.names, ledger + [e], |ledger|)
      modifies this`ledger
      ensures Valid() && ledger == old(ledger) + [e]
    {
      forall i: nat | i < |ledger| ensures Lawful(cfg, dir.names, ledger + [e], i) {
        LawfulPrefix(cfg, dir.names, ledger, e, i);
      }
      ledger := ledger + [e];
    }
  }
}
