/** Where the flags and times of a ticket can come from, in every run of the protocol. */
module KdcTheorems {
  import opened Names
  import opened Tickets
  import opened Kdc
  import opened KdcRuns
  import opened KdcGrants

  // ----- Derivation -----

  /** The ticket an entry carries on: the TGT, the evidence of a delegation, or the ticket copied. An
      S4U2Self ticket carries nothing on; it starts a derivation, as an AS exchange does. */
  function Parent(e: Entry): Option<nat> {
    match e.origin
    case ServiceTicket(j) => Some(j)
    case S4U2Proxy(_, k) => Some(k)
    case Renewal(j) => Some(j)
    case Validation(j) => Some(j)
    case _ => None
  }

  /** The ticket whose contents an entry copies: renewals and validations only. */
  function Copied(e: Entry): Option<nat> {
    if e.origin.Renewal? || e.origin.Validation? then Some(e.origin.tgt) else None
  }

  /** Entry `e` was minted from ticket `j`, as TGT or as evidence. */
  predicate UsesTicket(e: Entry, j: nat) {
    match e.origin
    case S4U2Proxy(t, k) => j == t || j == k
    case AsExchange(_) => false
    case RemoteKdc => false
    case _ => j == e.origin.tgt
  }

  /** The AS exchange, S4U2Self step or remote KDC a ticket descends from. */
  ghost function Root(ledger: Ledger, i: nat): (r: nat)
    requires i < |ledger|
    ensures r <= i
  {
    match Parent(ledger[i])
    case Some(j) => if j < i then Root(ledger, j) else i
    case None => i
  }

  /** The ticket at which a chain of renewals and validations starts. */
  ghost function Head(ledger: Ledger, i: nat): (h: nat)
    requires i < |ledger|
    ensures h <= i
  {
    match Copied(ledger[i])
    case Some(j) => if j < i then Head(ledger, j) else i
    case None => i
  }

  /** `v` lies on the chain of renewals and validations that ends in `i`. */
  ghost predicate OnCopyChain(ledger: Ledger, i: nat, v: nat)
    requires i < |ledger|
  {
    v == i || (Copied(ledger[i]).Some? && Copied(ledger[i]).value < i && OnCopyChain(ledger, Copied(ledger[i]).value, v))
  }

  /** `i` was issued from `v` through issue steps alone: service tickets and delegations. */
  ghost predicate OnIssueChain(ledger: Ledger, i: nat, v: nat)
    requires i < |ledger|
  {
    v == i ||
    (Parent(ledger[i]).Some? && Copied(ledger[i]).None? && Parent(ledger[i]).value < i &&
     OnIssueChain(ledger, Parent(ledger[i]).value, v))
  }

  predicate Local(cfg: Config, t: Ticket) {
    t.client.realm == cfg.realm
  }

  /** A derivation keeps its client to the end, and starts where one can start. */
  lemma {:induction false} RootKeepsClient(cfg: Config, names: NameTable, ledger: Ledger, i: nat)
    requires AllLawful(cfg, names, ledger) && i < |ledger|
    ensures ledger[Root(ledger, i)].ticket.client == ledger[i].ticket.client
    ensures var o := ledger[Root(ledger, i)].origin; o.AsExchange? || o.S4U2Self? || o.RemoteKdc?
    ensures ledger[Root(ledger, i)].origin.RemoteKdc? <==> !Local(cfg, ledger[i].ticket)
    decreases i
  {
    assert Lawful(cfg, names, ledger, i);
    match Parent(ledger[i])
    case Some(j) => RootKeepsClient(cfg, names, ledger, j);
    case None =>
  }

  // ----- The events behind a root -----

  /** The k-th event is an AS request whose first timestamp verified, and it minted this entry. */
  ghost predicate VerifiedAt(cfg: Config, s: State, es: seq<Event>, k: nat, e: Entry)
    requires s.dir.Valid()
  {
    InitialAt(cfg, s, es, k, e) && Verifies(FirstTimestamp(es[k].action.as_.padata), e.at, cfg.clockSkew)
  }

  /** The k-th event is an AS request, which minted this entry on what it had to be granted on. */
  ghost predicate InitialAt(cfg: Config, s: State, es: seq<Event>, k: nat, e: Entry)
    requires s.dir.Valid()
  {
    && k < |es| && es[k].now == e.at && es[k].action.AsReq? && Mints(cfg, After(cfg, s, es[..k]), es[k], e)
    && Granted(cfg, After(cfg, s, es[..k]).dir, es[k].action.as_, e)
  }

  /** In state `t` the event is the verified request of a service for an S4U2Self ticket, the client of whose
      TGT leads to that service, which may act for the user and may or may not authenticate for
      delegation. */
  ghost predicate AsksForSelf(cfg: Config, t: State, ev: Event, e: Entry, trusted: bool)
    requires t.dir.Valid()
  {
    && ev.action.TgsReq? && cfg.allowS4U && ev.action.tgs.forUserVerified && ev.action.tgs.authentic
    && var j := ev.action.tgs.tgt.index;
    && j < |t.ledger| && ev.action.tgs.forUser == Some(e.ticket.client)
    && t.dir.Find(t.ledger[j].ticket.client).Some?
    && var p := t.dir.Find(t.ledger[j].ticket.client).value;
    && p.id == e.ticket.sealedFor && p.rules.okToAuthAsDelegate == trusted && ActsFor(p, e.ticket.client)
  }

  /** The k-th event is such a request, and it minted this entry. */
  ghost predicate SelfAt(cfg: Config, s: State, es: seq<Event>, k: nat, e: Entry, trusted: bool)
    requires s.dir.Valid()
  {
    && k < |es| && es[k].now == e.at
    && Mints(cfg, After(cfg, s, es[..k]), es[k], e) && AsksForSelf(cfg, After(cfg, s, es[..k]), es[k], e, trusted)
  }

  lemma SelfFacts(cfg: Config, t: State, req: TgsRequest, e: Entry)
    requires t.dir.Valid() && TgsReply(cfg, t.dir, t.ledger, req, e.at) == Ok(e) && e.origin.S4U2Self?
    ensures AsksForSelf(cfg, t, Event(e.at, TgsReq(req)), e, e.origin.trusted)
  {
  }

  lemma TgsOrigins(cfg: Config, dir: Directory, ledger: Ledger, req: TgsRequest, now: Time)
    requires dir.Valid() && TgsReply(cfg, dir, ledger, req, now).Ok?
    ensures var o := TgsReply(cfg, dir, ledger, req, now).value.origin; !o.AsExchange? && !o.RemoteKdc?
  {
  }

  lemma MintsVerified(cfg: Config, t: State, ev: Event, e: Entry)
    requires Mints(cfg, t, ev, e) && e.origin == AsExchange(true)
    ensures ev.action.AsReq? && Verifies(FirstTimestamp(ev.action.as_.padata), e.at, cfg.clockSkew)
  {
    if ev.action.TgsReq? { TgsOrigins(cfg, t.dir, t.ledger, ev.action.tgs, e.at); }
    if ev.action.AsReq? { AsExchangeVerifies(cfg, t.dir, ev.action.as_, e.at); }
  }

  lemma MintsSelf(cfg: Config, t: State, ev: Event, e: Entry)
    requires Mints(cfg, t, ev, e) && e.origin.S4U2Self?
    ensures AsksForSelf(cfg, t, ev, e, e.origin.trusted)
  {
    if ev.action.AsReq? { AsExchangeVerifies(cfg, t.dir, ev.action.as_, e.at); }
    if ev.action.TgsReq? { SelfFacts(cfg, t, ev.action.tgs, e); }
  }

  /** Behind every pre-authenticated AS ticket there is the request that verified. */
  lemma VerifiedByEvent(cfg: Config, s: State, es: seq<Event>, i: nat)
    requires Initial(s) && IsRun(cfg, s, es) && i < |After(cfg, s, es).ledger|
    requires After(cfg, s, es).ledger[i].origin == AsExchange(true)
    ensures exists k :: VerifiedAt(cfg, s, es, k, After(cfg, s, es).ledger[i])
  {
    var e := After(cfg, s, es).ledger[i];
    var k := MintedBy(cfg, s, es, i);
    MintsVerified(cfg, After(cfg, s, es[..k]), es[k], e);
    AsGrants(cfg, After(cfg, s, es[..k]).dir, es[k].action.as_, e.at);
    assert VerifiedAt(cfg, s, es, k, e);
  }

  lemma InitialByEvent(cfg: Config, s: State, es: seq<Event>, i: nat)
    requires Initial(s) && IsRun(cfg, s, es) && i < |After(cfg, s, es).ledger|
    requires After(cfg, s, es).ledger[i].origin.AsExchange?
    ensures exists k :: InitialAt(cfg, s, es, k, After(cfg, s, es).ledger[i])
  {
    var e := After(cfg, s, es).ledger[i];
    var k := MintedBy(cfg, s, es, i);
    var t := After(cfg, s, es[..k]);
    if es[k].action.TgsReq? { TgsOrigins(cfg, t.dir, t.ledger, es[k].action.tgs, e.at); }
    if es[k].action.AsReq? { AsGrants(cfg, t.dir, es[k].action.as_, e.at); }
    assert InitialAt(cfg, s, es, k, e);
  }

  /** Behind every S4U2Self ticket there is the request of the service it is sealed for. */
  lemma SelfByEvent(cfg: Config, s: State, es: seq<Event>, i: nat)
    requires Initial(s) && IsRun(cfg, s, es) && i < |After(cfg, s, es).ledger|
    ensures var e := After(cfg, s, es).ledger[i]; e.origin.S4U2Self? ==> exists k :: SelfAt(cfg, s, es, k, e, e.origin.trusted)
  {
    var e := After(cfg, s, es).ledger[i];
    if e.origin.S4U2Self? {
      var k := MintedBy(cfg, s, es, i);
      MintsSelf(cfg, After(cfg, s, es[..k]), es[k], e);
      assert SelfAt(cfg, s, es, k, e, e.origin.trusted);
    }
  }

  lemma SelfUnderSameRules(cfg: Config, dir: Directory, t: State, ev: Event, e: Entry, trusted: bool)
    requires dir.Valid() && t.dir.Valid() && SameRules(dir, t.dir) && AsksForSelf(cfg, t, ev, e, trusted)
    ensures e.ticket.sealedFor in dir.principals && ActsFor(dir.principals[e.ticket.sealedFor], e.ticket.client)
    ensures dir.principals[e.ticket.sealedFor].rules.okToAuthAsDelegate == trusted
  {
  }

  /** While the rules do not change, no S4U2Self ticket is for a client off its service's list, and it is marked
      trusted exactly for a service that may authenticate for delegation. */
  lemma SelfFollowsTheRules(cfg: Config, s: State, es: seq<Event>, i: nat)
    requires Initial(s) && IsRun(cfg, s, es) && RulesFixed(s.dir, es) && i < |After(cfg, s, es).ledger|
    ensures var e := After(cfg, s, es).ledger[i];
            e.origin.S4U2Self? ==>
              && cfg.allowS4U && e.ticket.sealedFor in s.dir.principals
              && ActsFor(s.dir.principals[e.ticket.sealedFor], e.ticket.client)
              && s.dir.principals[e.ticket.sealedFor].rules.okToAuthAsDelegate == e.origin.trusted
  {
    var e := After(cfg, s, es).ledger[i];
    if e.origin.S4U2Self? {
      var k := MintedBy(cfg, s, es, i);
      MintsSelf(cfg, After(cfg, s, es[..k]), es[k], e);
      RunPrefix(cfg, s, es, k);
      RunRuled(cfg, s, es[..k]);
      SelfUnderSameRules(cfg, s.dir, After(cfg, s, es[..k]), es[k], e, e.origin.trusted);
    }
  }

  // ----- FORWARDABLE -----

  lemma {:induction false} ForwardableInLedger(cfg: Config, dir: Directory, ledger: Ledger, i: nat)
    requires dir.Valid() && AllLawful(cfg, dir.names, ledger) && i < |ledger|
    requires forall e <- ledger :: e.ticket.sealedFor in dir.principals && Ruled(cfg, dir, e)
    requires ledger[i].ticket.flags.forwardable && Local(cfg, ledger[i].ticket)
    ensures dir.Find(ledger[i].ticket.client).Some?
    ensures dir.Find(ledger[i].ticket.client).value.rules.allowForwardable
    decreases i
  {
    assert Lawful(cfg, dir.names, ledger, i) && ledger[i] in ledger;
    match ledger[i].origin
    case S4U2Proxy(_, k) => ForwardableInLedger(cfg, dir, ledger, k);
    case Renewal(j) => ForwardableInLedger(cfg, dir, ledger, j);
    case Validation(j) => ForwardableInLedger(cfg, dir, ledger, j);
    case _ =>
  }

  /** While the rules do not change, a FORWARDABLE ticket in the name of a principal of this realm
      exists only if that principal may have one, although delegation sets the flag unasked. */
  lemma ForwardableOnlyIfAllowed(cfg: Config, s: State, es: seq<Event>, i: nat)
    requires Initial(s) && IsRun(cfg, s, es) && RulesFixed(s.dir, es)
    requires i < |After(cfg, s, es).ledger|
    ensures var t := After(cfg, s, es).ledger[i].ticket;
            t.flags.forwardable && Local(cfg, t) ==>
              s.dir.Find(t.client).Some? && s.dir.Find(t.client).value.rules.allowForwardable
  {
    RunInv(cfg, s, es);
    RunRuled(cfg, s, es);
    var ledger := After(cfg, s, es).ledger;
    if ledger[i].ticket.flags.forwardable && Local(cfg, ledger[i].ticket) {
      ForwardableInLedger(cfg, s.dir, ledger, i);
    }
  }

  /** A principal barred from forwarding is never the subject of a delegated ticket. */
  lemma BarredIsNeverDelegated(cfg: Config, s: State, es: seq<Event>, i: nat, p: Principal)
    requires Initial(s) && IsRun(cfg, s, es) && RulesFixed(s.dir, es)
    requires i < |After(cfg, s, es).ledger|
    requires var e := After(cfg, s, es).ledger[i];
             Local(cfg, e.ticket) && s.dir.Find(e.ticket.client) == Some(p) && !p.rules.allowForwardable
    ensures !After(cfg, s, es).ledger[i].origin.S4U2Proxy?
  {
    RunInv(cfg, s, es);
    ForwardableOnlyIfAllowed(cfg, s, es, i);
    assert Lawful(cfg, s.dir.names, After(cfg, s, es).ledger, i);
  }

  /** The services that asked for S4U2Self without being trusted to authenticate for delegation are
      not ticket-granting services. */
  ghost predicate UntrustedAreServices(names: NameTable, ledger: Ledger) {
    forall e <- ledger :: e.origin.S4U2Self? && !e.origin.trusted ==> !IsTgsPrincipal(names, e.ticket.sealedFor)
  }

  /** What an untrusted service gets from S4U2Self leads nowhere: in no run does any later step accept
      it, as a TGT, as evidence, for renewal or for validation. */
  lemma UntrustedS4U2SelfLeadsNowhere(cfg: Config, s: State, es: seq<Event>, i: nat, k: nat)
    requires Initial(s) && IsRun(cfg, s, es)
    requires i < |After(cfg, s, es).ledger| && k < |After(cfg, s, es).ledger|
    requires var e := After(cfg, s, es).ledger[i];
             e.origin.S4U2Self? && !e.origin.trusted && !IsTgsPrincipal(s.dir.names, e.ticket.sealedFor)
    ensures !After(cfg, s, es).ledger[i].ticket.flags.forwardable
    ensures !UsesTicket(After(cfg, s, es).ledger[k], i)
  {
    RunInv(cfg, s, es);
    var ledger := After(cfg, s, es).ledger;
    assert Lawful(cfg, s.dir.names, ledger, i) && Lawful(cfg, s.dir.names, ledger, k);
  }

  lemma {:induction false} ForwardableTrace(cfg: Config, names: NameTable, ledger: Ledger, i: nat)
    requires AllLawful(cfg, names, ledger) && UntrustedAreServices(names, ledger) && i < |ledger|
    requires ledger[i].ticket.flags.forwardable
    ensures var o := ledger[Root(ledger, i)].origin; o.S4U2Self? ==> o.trusted
    decreases i
  {
    assert Lawful(cfg, names, ledger, i) && ledger[i] in ledger;
    match ledger[i].origin
    case ServiceTicket(j) => UntrustedRootIsTgs(cfg, names, ledger, j);
    case S4U2Proxy(_, k) => ForwardableTrace(cfg, names, ledger, k);
    case Renewal(j) => ForwardableTrace(cfg, names, ledger, j);
    case Validation(j) => ForwardableTrace(cfg, names, ledger, j);
    case _ =>
  }

  /** A ticket that descends from an untrusted S4U2Self is that very ticket. */
  lemma {:induction false} UntrustedRootIsTgs(cfg: Config, names: NameTable, ledger: Ledger, i: nat)
    requires AllLawful(cfg, names, ledger) && UntrustedAreServices(names, ledger) && i < |ledger|
    ensures var o := ledger[Root(ledger, i)].origin; o.S4U2Self? && !o.trusted ==> Root(ledger, i) == i
    decreases i
  {
    assert Lawful(cfg, names, ledger, i) && ledger[i] in ledger;
    match Parent(ledger[i])
    case Some(j) =>
      assert ledger[j] in ledger && Lawful(cfg, names, ledger, j);
      UntrustedRootIsTgs(cfg, names, ledger, j);
    case None =>
  }

  /** Every FORWARDABLE ticket of a local client traces back to that client's own AS exchange, or to an
      S4U2Self by a service trusted to authenticate for delegation. */
  lemma ForwardableComesFromConsentOrTrust(cfg: Config, s: State, es: seq<Event>, i: nat)
    requires Initial(s) && IsRun(cfg, s, es)
    requires i < |After(cfg, s, es).ledger|
    requires UntrustedAreServices(s.dir.names, After(cfg, s, es).ledger)
    ensures var ledger := After(cfg, s, es).ledger;
            ledger[i].ticket.flags.forwardable && Local(cfg, ledger[i].ticket) ==>
              var root := ledger[Root(ledger, i)];
              && root.ticket.client == ledger[i].ticket.client
              && ((exists k :: InitialAt(cfg, s, es, k, root)) || (exists k :: SelfAt(cfg, s, es, k, root, true)))
  {
    RunInv(cfg, s, es);
    var ledger := After(cfg, s, es).ledger;
    RootKeepsClient(cfg, s.dir.names, ledger, i);
    if ledger[i].ticket.flags.forwardable {
      ForwardableTrace(cfg, s.dir.names, ledger, i);
      if Local(cfg, ledger[i].ticket) {
        if ledger[Root(ledger, i)].origin.S4U2Self? {
          SelfByEvent(cfg, s, es, Root(ledger, i));
        } else {
          InitialByEvent(cfg, s, es, Root(ledger, i));
        }
      }
    }
  }

  // ----- PRE-AUTHENT and the authentication time -----

  lemma {:induction false} AuthFacts(cfg: Config, names: NameTable, ledger: Ledger, i: nat)
    requires AllLawful(cfg, names, ledger) && i < |ledger|
    ensures var root := ledger[Root(ledger, i)];
            && ledger[i].ticket.flags.preAuthent == root.ticket.flags.preAuthent
            && (!root.origin.RemoteKdc? ==> ledger[i].ticket.authTime == root.ticket.authTime == root.at > ZERO_TIME)
    decreases i
  {
    assert Lawful(cfg, names, ledger, i);
    match Parent(ledger[i])
    case Some(j) => AuthFacts(cfg, names, ledger, j);
    case None =>
  }

  /** A PRE-AUTHENT ticket of a local client descends from an AS exchange of that client in which the
      encrypted timestamp verified, and carries the instant of that exchange; a ticket that descends
      from S4U2Self never has the flag. */
  lemma PreAuthentComesFromVerifiedTimestamp(cfg: Config, s: State, es: seq<Event>, i: nat)
    requires Initial(s) && IsRun(cfg, s, es)
    requires i < |After(cfg, s, es).ledger|
    ensures var ledger := After(cfg, s, es).ledger;
            var root := ledger[Root(ledger, i)];
            && root.ticket.client == ledger[i].ticket.client
            && (Local(cfg, ledger[i].ticket) ==>
                  && (ledger[i].ticket.flags.preAuthent <==> root.origin == AsExchange(true))
                  && (ledger[i].ticket.flags.preAuthent ==> exists k :: VerifiedAt(cfg, s, es, k, root))
                  && ledger[i].ticket.authTime == root.at)
            && (root.origin.S4U2Self? ==> !ledger[i].ticket.flags.preAuthent)
  {
    RunInv(cfg, s, es);
    var ledger := After(cfg, s, es).ledger;
    RootKeepsClient(cfg, s.dir.names, ledger, i);
    AuthFacts(cfg, s.dir.names, ledger, i);
    assert Lawful(cfg, s.dir.names, ledger, Root(ledger, i));
    if ledger[Root(ledger, i)].origin == AsExchange(true) { VerifiedByEvent(cfg, s, es, Root(ledger, i)); }
  }

  /** The AS exchange marks a ticket pre-authenticated exactly when the first encrypted timestamp of
      the request opens under the client's key and lies within the skew. */
  lemma AsExchangeVerifies(cfg: Config, dir: Directory, req: AsRequest, now: Time)
    requires dir.Valid() && AsReply(cfg, dir, req, now).reply.Ok?
    ensures AsReply(cfg, dir, req, now).reply.value.origin ==
            AsExchange(Verifies(FirstTimestamp(req.padata), now, cfg.clockSkew))
    ensures AsReply(cfg, dir, req, now).recorded ==
            (if Verifies(FirstTimestamp(req.padata), now, cfg.clockSkew) then Some(true) else None)
  {
  }

  /** While a principal is locked out, its AS exchange answers the same whatever pre-authentication
      the request carries, and records nothing. */
  lemma LockedOutEvaluatesNothing(cfg: Config, dir: Directory, req: AsRequest, other: seq<PaData>, now: Time, p: Principal)
    requires dir.Valid() && dir.Find(Name(req.cname, cfg.realm)) == Some(p)
    requires p.StatusAt(now) == LockedOut
    ensures AsReply(cfg, dir, req, now).reply.Err? && AsReply(cfg, dir, req, now).recorded == None
    ensures AsReply(cfg, dir, req.(padata := other), now) == AsReply(cfg, dir, req, now)
  {
  }

  // ----- INVALID -----

  /** Whatever options a request combines, an INVALID ticket is never what a new ticket is issued from,
      as TGT or as evidence; and no ticket is used before its start, less the skew. */
  lemma InvalidIsNeverASource(cfg: Config, s: State, es: seq<Event>, i: nat, j: nat)
    requires Initial(s) && IsRun(cfg, s, es)
    requires i < |After(cfg, s, es).ledger| && UsesTicket(After(cfg, s, es).ledger[i], j)
    ensures var ledger := After(cfg, s, es).ledger;
            && j < i
            && (Copied(ledger[i]).None? ==> !ledger[j].ticket.flags.invalid)
            && (ledger[j].ticket.startTime != ZERO_TIME ==> ledger[i].at + cfg.clockSkew >= ledger[j].ticket.startTime)
  {
    RunInv(cfg, s, es);
    assert Lawful(cfg, s.dir.names, After(cfg, s, es).ledger, i);
  }

  /** On the chain of `i` there is a validation made once its start time, less the skew, had come. */
  ghost predicate ValidatedInTime(cfg: Config, ledger: Ledger, i: nat)
    requires i < |ledger|
  {
    exists v: nat ::
      && v < |ledger| && OnCopyChain(ledger, i, v) && ledger[v].origin.Validation?
      && ledger[v].at + cfg.clockSkew >= ledger[Head(ledger, i)].ticket.startTime
  }

  lemma {:induction false} PostdatedChain(cfg: Config, names: NameTable, ledger: Ledger, clock: Time, i: nat)
    requires AllLawful(cfg, names, ledger) && Chronological(ledger, clock) && i < |ledger|
    requires !ledger[Head(ledger, i)].origin.RemoteKdc?
    ensures var head := ledger[Head(ledger, i)];
            && ledger[i].ticket.flags.postdated == head.ticket.flags.postdated
            && (ledger[i].ticket.flags.invalid ==> ledger[i].ticket.flags.postdated)
            && (ledger[i].ticket.flags.postdated ==>
                  && (Head(ledger, i) != i ==> ledger[i].at + cfg.clockSkew >= head.ticket.startTime)
                  && (!ledger[i].ticket.flags.invalid ==> ValidatedInTime(cfg, ledger, i)))
    decreases i
  {
    assert Lawful(cfg, names, ledger, i);
    match ledger[i].origin
    case Renewal(j) =>
      PostdatedChain(cfg, names, ledger, clock, j);
      if ledger[i].ticket.flags.postdated && !ledger[i].ticket.flags.invalid {
        var v: nat :| && v < |ledger| && OnCopyChain(ledger, j, v) && ledger[v].origin.Validation?
                      && ledger[v].at + cfg.clockSkew >= ledger[Head(ledger, j)].ticket.startTime;
        assert OnCopyChain(ledger, i, v);
      }
    case Validation(j) =>
      PostdatedChain(cfg, names, ledger, clock, j);
      assert OnCopyChain(ledger, i, i);
    case _ =>
  }

  /** A POSTDATED ticket of this KDC's own making that is not INVALID went through a validation once
      its original start time, less the skew, had come; and only a ticket for a ticket-granting
      service can have done so. */
  lemma UsablePostdatedWasValidated(cfg: Config, s: State, es: seq<Event>, i: nat)
    requires Initial(s) && IsRun(cfg, s, es)
    requires i < |After(cfg, s, es).ledger|
    ensures var ledger := After(cfg, s, es).ledger;
            && !ledger[Head(ledger, i)].origin.RemoteKdc?
            && ledger[i].ticket.flags.postdated && !ledger[i].ticket.flags.invalid ==>
              ValidatedInTime(cfg, ledger, i) && IsTgsPrincipal(s.dir.names, ledger[i].ticket.sealedFor)
  {
    RunInv(cfg, s, es);
    var t := After(cfg, s, es);
    if !t.ledger[Head(t.ledger, i)].origin.RemoteKdc? { PostdatedChain(cfg, s.dir.names, t.ledger, t.clock, i); }
    assert Lawful(cfg, s.dir.names, t.ledger, i);
  }

  // ----- Lifetimes and renewal -----

  lemma {:induction false} CopyChainFacts(cfg: Config, names: NameTable, ledger: Ledger, i: nat)
    requires AllLawful(cfg, names, ledger) && i < |ledger|
    ensures var h := ledger[Head(ledger, i)].ticket;
            var t := ledger[i].ticket;
            && t.client == h.client && t.sealedFor == h.sealedFor
            && t.authTime == h.authTime && t.renewTill == h.renewTill
            && (t.flags.renewable <==> h.flags.renewable)
            && (!ledger[Head(ledger, i)].origin.RemoteKdc? ==>
                  t.endTime > ZERO_TIME && (t.flags.renewable ==> t.endTime <= h.renewTill))
    decreases i
  {
    assert Lawful(cfg, names, ledger, i);
    match Copied(ledger[i])
    case Some(j) => CopyChainFacts(cfg, names, ledger, j);
    case None =>
  }

  /** Any chain of renewals and validations keeps the client, the service, the authentication time and
      the renew-until time of the ticket it starts from, and never runs past that renew-until time. */
  lemma RenewalsKeepTheirLimit(cfg: Config, s: State, es: seq<Event>, i: nat)
    requires Initial(s) && IsRun(cfg, s, es)
    requires i < |After(cfg, s, es).ledger|
    ensures var ledger := After(cfg, s, es).ledger;
            var head := ledger[Head(ledger, i)];
            var t := ledger[i].ticket;
            && t.client == head.ticket.client && t.sealedFor == head.ticket.sealedFor
            && t.authTime == head.ticket.authTime && t.renewTill == head.ticket.renewTill
            && (t.flags.renewable && !head.origin.RemoteKdc? ==> t.endTime <= head.ticket.renewTill)
            && (ledger[i].origin.Renewal? ==> t.endTime <= head.ticket.renewTill)
  {
    RunInv(cfg, s, es);
    CopyChainFacts(cfg, s.dir.names, After(cfg, s, es).ledger, i);
    assert Lawful(cfg, s.dir.names, After(cfg, s, es).ledger, i);
  }

  lemma {:induction false} LifeInLedger(cfg: Config, dir: Directory, ledger: Ledger, i: nat)
    requires dir.Valid() && AllLawful(cfg, dir.names, ledger) && i < |ledger|
    requires forall e <- ledger :: e.ticket.sealedFor in dir.principals && Ruled(cfg, dir, e)
    requires !ledger[Head(ledger, i)].origin.RemoteKdc?
    ensures ledger[i].ticket.sealedFor in dir.principals
    ensures ledger[i].ticket.endTime <= ledger[i].ticket.startTime + LifeFor(cfg, dir, ledger[i].ticket)
    decreases i
  {
    assert Lawful(cfg, dir.names, ledger, i) && ledger[i] in ledger;
    match ledger[i].origin
    case Validation(j) => LifeInLedger(cfg, dir, ledger, j);
    case _ =>
  }

  /** While the rules do not change, no ticket of this KDC's own making lives longer than the limits of
      its client, its service and the realm allow. */
  lemma LifeIsBounded(cfg: Config, s: State, es: seq<Event>, i: nat)
    requires Initial(s) && IsRun(cfg, s, es) && RulesFixed(s.dir, es)
    requires i < |After(cfg, s, es).ledger|
    ensures var ledger := After(cfg, s, es).ledger;
            var t := ledger[i].ticket;
            !ledger[Head(ledger, i)].origin.RemoteKdc? ==>
              t.sealedFor in s.dir.principals && t.endTime <= t.startTime + LifeFor(cfg, s.dir, t)
  {
    RunInv(cfg, s, es);
    RunRuled(cfg, s, es);
    var ledger := After(cfg, s, es).ledger;
    if !ledger[Head(ledger, i)].origin.RemoteKdc? { LifeInLedger(cfg, s.dir, ledger, i); }
  }

  lemma {:induction false} IssueChainInLedger(cfg: Config, names: NameTable, ledger: Ledger, i: nat, v: nat)
    requires AllLawful(cfg, names, ledger) && i < |ledger|
    requires OnIssueChain(ledger, i, v)
    ensures v <= i
    ensures !ledger[Head(ledger, v)].origin.RemoteKdc? ==> ledger[i].ticket.endTime <= ledger[v].ticket.endTime
    decreases i
  {
    assert Lawful(cfg, names, ledger, i);
    if v != i {
      var j := Parent(ledger[i]).value;
      IssueChainInLedger(cfg, names, ledger, j, v);
      CopyChainFacts(cfg, names, ledger, j);
    }
  }

  /** Nothing issued from a ticket of this KDC's own making, through any number of service tickets and
      delegations, outlives it. */
  lemma DerivedNeverOutlives(cfg: Config, s: State, es: seq<Event>, i: nat, v: nat)
    requires Initial(s) && IsRun(cfg, s, es)
    requires i < |After(cfg, s, es).ledger| && OnIssueChain(After(cfg, s, es).ledger, i, v)
    ensures v <= i
    ensures var ledger := After(cfg, s, es).ledger;
            !ledger[Head(ledger, v)].origin.RemoteKdc? ==> ledger[i].ticket.endTime <= ledger[v].ticket.endTime
  {
    RunInv(cfg, s, es);
    IssueChainInLedger(cfg, s.dir.names, After(cfg, s, es).ledger, i, v);
  }

  // ----- Constrained delegation -----

  /** In state `t` the event asks for a delegated ticket: the evidence is a FORWARDABLE ticket sealed for the
      very principal the TGT's client leads to, that principal lists the target, and may act for the
      evidence's client. */
  ghost predicate AsksForProxy(cfg: Config, t: State, ev: Event, e: Entry)
    requires t.dir.Valid()
  {
    && cfg.allowS4U && ev.action.TgsReq? && ev.action.tgs.evidence.Some?
    && ev.action.tgs.authentic && ev.action.tgs.evidencePacIntact
    && var req := ev.action.tgs;
    var j, k := req.tgt.index, req.evidence.value.index;
    && j < |t.ledger| && k < |t.ledger| && e.origin == S4U2Proxy(j, k)
    && t.ledger[k].ticket.flags.forwardable && e.ticket.client == t.ledger[k].ticket.client
    && Answers(t.dir.names, req.target, e.ticket.sealedFor)
    && t.dir.Find(t.ledger[j].ticket.client).Some?
    && var p := t.dir.Find(t.ledger[j].ticket.client).value;
    && t.ledger[k].ticket.sealedFor == p.id
    && Listed(p.rules.delegateTo, req.target) && ActsFor(p, e.ticket.client)
  }

  ghost predicate DelegatedAt(cfg: Config, s: State, es: seq<Event>, k: nat, e: Entry)
    requires s.dir.Valid()
  {
    && k < |es| && es[k].now == e.at
    && Mints(cfg, After(cfg, s, es[..k]), es[k], e) && AsksForProxy(cfg, After(cfg, s, es[..k]), es[k], e)
  }

  lemma MintsProxy(cfg: Config, t: State, ev: Event, e: Entry)
    requires Mints(cfg, t, ev, e) && e.origin.S4U2Proxy?
    ensures AsksForProxy(cfg, t, ev, e)
  {
    if ev.action.AsReq? { AsExchangeVerifies(cfg, t.dir, ev.action.as_, e.at); }
  }

  /** Every delegated ticket of a run rests on such a request, judged by the rules of that moment. */
  lemma DelegationIsConstrained(cfg: Config, s: State, es: seq<Event>, i: nat)
    requires Initial(s) && IsRun(cfg, s, es) && i < |After(cfg, s, es).ledger|
    ensures var e := After(cfg, s, es).ledger[i]; e.origin.S4U2Proxy? ==> exists k :: DelegatedAt(cfg, s, es, k, e)
  {
    var e := After(cfg, s, es).ledger[i];
    if e.origin.S4U2Proxy? {
      var k := MintedBy(cfg, s, es, i);
      MintsProxy(cfg, After(cfg, s, es[..k]), es[k], e);
      assert DelegatedAt(cfg, s, es, k, e);
    }
  }

  lemma {:induction false} RunPrefix(cfg: Config, s: State, es: seq<Event>, k: nat)
    requires s.dir.Valid() && IsRun(cfg, s, es) && k <= |es|
    ensures IsRun(cfg, s, es[..k])
    decreases |es|
  {
    if k < |es| {
      RunPrefix(cfg, s, es[..|es| - 1], k);
      assert es[..|es| - 1][..k] == es[..k];
    } else {
      assert es[..k] == es;
    }
  }

  /** The requester of a delegation may delegate to the service the ticket is sealed for. */
  ghost predicate MayDelegate(dir: Directory, requester: Name, evidence: Ticket, sealedFor: int)
    requires dir.Valid()
  {
    && dir.Find(requester).Some? && dir.Find(requester).value.id == evidence.sealedFor
    && exists target: Name :: Listed(dir.Find(requester).value.rules.delegateTo, target) && Answers(dir.names, target, sealedFor)
  }

  lemma ProxyUnderSameRules(cfg: Config, dir: Directory, t: State, ev: Event, e: Entry)
    requires dir.Valid() && t.dir.Valid() && SameRules(dir, t.dir) && AsksForProxy(cfg, t, ev, e)
    ensures MayDelegate(dir, t.ledger[e.origin.tgt].ticket.client, t.ledger[e.origin.evidence].ticket, e.ticket.sealedFor)
  {
    assert Answers(dir.names, ev.action.tgs.target, e.ticket.sealedFor);
  }

  /** While the rules do not change, every delegated ticket is for a service that the holder of its evidence
      was allowed to delegate to. */
  lemma DelegationFollowsTheRules(cfg: Config, s: State, es: seq<Event>, i: nat)
    requires Initial(s) && IsRun(cfg, s, es) && RulesFixed(s.dir, es) && i < |After(cfg, s, es).ledger|
    ensures var ledger := After(cfg, s, es).ledger;
            var e := ledger[i];
            e.origin.S4U2Proxy? ==>
              && e.origin.tgt < i && e.origin.evidence < i
              && MayDelegate(s.dir, ledger[e.origin.tgt].ticket.client, ledger[e.origin.evidence].ticket, e.ticket.sealedFor)
  {
    var ledger := After(cfg, s, es).ledger;
    if ledger[i].origin.S4U2Proxy? {
      var k := MintedBy(cfg, s, es, i);
      MintsProxy(cfg, After(cfg, s, es[..k]), es[k], ledger[i]);
      RunPrefix(cfg, s, es, k);
      RunRuled(cfg, s, es[..k]);
      ProxyUnderSameRules(cfg, s.dir, After(cfg, s, es[..k]), es[k], ledger[i]);
    }
  }

  // ----- INITIAL and the password service -----

  /** An INITIAL ticket of a local client was minted by an AS exchange, or is what validations made of one,
      and then it is for a ticket-granting service. */
  lemma {:induction false} InitialHead(cfg: Config, names: NameTable, ledger: Ledger, i: nat)
    requires AllLawful(cfg, names, ledger) && i < |ledger| && ledger[i].ticket.flags.initial && Local(cfg, ledger[i].ticket)
    ensures ledger[Head(ledger, i)].origin.AsExchange?
    ensures Head(ledger, i) != i ==> IsTgsPrincipal(names, ledger[i].ticket.sealedFor)
    decreases i
  {
    assert Lawful(cfg, names, ledger, i);
    match ledger[i].origin
    case Validation(j) => InitialHead(cfg, names, ledger, j);
    case _ =>
  }

  /** Every password change applied in a run goes to the client of an INITIAL ticket sealed for a principal that
      answers to the password service's name. Unless that principal also answers to a ticket-granting
      name, an AS exchange minted that very ticket; and for a client of this realm one minted, for the
      same principal, the ticket it was validated from. */
  lemma PasswordChangesRestOnAsExchange(cfg: Config, s: State, es: seq<Event>, c: Change)
    requires Initial(s) && IsRun(cfg, s, es) && c in After(cfg, s, es).changes
    ensures var ledger := After(cfg, s, es).ledger;
            && c.ticket < |ledger|
            && var e := ledger[c.ticket];
            && e.ticket.client == c.subject
            && (exists name: Name :: name.IsChangePw() && Answers(s.dir.names, name, e.ticket.sealedFor))
            && (!IsTgsPrincipal(s.dir.names, e.ticket.sealedFor) ==> e.origin.AsExchange? && Local(cfg, e.ticket))
            && (Local(cfg, e.ticket) ==>
                  var head := ledger[Head(ledger, c.ticket)];
                  head.origin.AsExchange? && head.ticket.client == c.subject && head.ticket.sealedFor == e.ticket.sealedFor)
  {
    RunInv(cfg, s, es);
    var ledger := After(cfg, s, es).ledger;
    assert Justified(s.dir.names, ledger, c);
    assert Lawful(cfg, s.dir.names, ledger, c.ticket);
    CopyChainFacts(cfg, s.dir.names, ledger, c.ticket);
    if Local(cfg, ledger[c.ticket].ticket) { InitialHead(cfg, s.dir.names, ledger, c.ticket); }
  }

  // ----- Where the promises stop -----

  /** The request that spends ledger ticket `i` as a TGT, asking for a FORWARDABLE ticket for `target`. */
  function ForwardRequest(i: nat, name: Name, target: Name): TgsRequest {
    var none := Options(false, false, false, false, false, false, false, false, false, false, false);
    TgsRequest(Presented(i, name), target, Body(none.(forwardable := true), ZERO_TIME, ZERO_TIME, ZERO_TIME),
               None, None, false, None, true, true, true, true)
  }

  /** Request `req` turns ledger ticket `i` into a FORWARDABLE one. */
  predicate MakesForwardable(cfg: Config, dir: Directory, ledger: Ledger, req: TgsRequest, i: nat, now: Time)
    requires dir.Valid()
  {
    var reply := TgsReply(cfg, dir, ledger, req, now);
    reply.Ok? && Parent(reply.value) == Some(i) && reply.value.ticket.flags.forwardable
  }

  lemma ForwardingNeedsTgs(cfg: Config, dir: Directory, ledger: Ledger, req: TgsRequest, i: nat, now: Time)
    requires dir.Valid() && now > ZERO_TIME
    requires i < |ledger| && !ledger[i].ticket.flags.forwardable
    requires MakesForwardable(cfg, dir, ledger, req, i, now)
    ensures IsTgsPrincipal(dir.names, ledger[i].ticket.sealedFor)
  {
    var e := TgsReply(cfg, dir, ledger, req, now).value;
    TgsMints(cfg, dir, ledger, req, now);
    assert (ledger + [e])[i] == ledger[i] && (ledger + [e])[|ledger|] == e;
  }

  /** Client and target may be used now, and their rules allow FORWARDABLE. */
  ghost predicate ForwardingAllowed(cfg: Config, dir: Directory, client: Name, target: Name, now: Time) {
    && dir.Valid() && cfg.maxTicketLife > 0
    && client.realm == cfg.realm && Load(dir, client, UnknownClient, now).Ok?
    && Load(dir, client, UnknownClient, now).value.rules.allowForwardable
    && target.realm == cfg.realm && !target.IsTgs() && target.components != []
    && Load(dir, target, UnknownServer, now).Ok?
    && Load(dir, target, UnknownServer, now).value.rules.allowForwardable
  }

  lemma TgtBuysForwardable(cfg: Config, dir: Directory, ledger: Ledger, i: nat, name: Name, target: Name, now: Time)
    requires i < |ledger| && ForwardingAllowed(cfg, dir, ledger[i].ticket.client, target, now)
    requires Refusal(ledger[i].ticket, now, cfg.clockSkew, false) == None
    requires name.IsTgs() && Answers(dir.names, name, ledger[i].ticket.sealedFor)
    ensures MakesForwardable(cfg, dir, ledger, ForwardRequest(i, name, target), i, now)
  {
    var req := ForwardRequest(i, name, target);
    assert Authenticate(cfg, dir, ledger, req, now) == Ok(ledger[i].ticket);
    assert Referred(cfg, dir, req) == Ok(target);
    assert Issue(cfg, dir, req, ledger[i].ticket.client, target, Some(ledger[i].ticket), AsRequested, now).Ok?;
  }

  /** Why `UntrustedAreServices` is asked for above: what an untrusted service got from S4U2Self can
      become FORWARDABLE exactly when that service is a ticket-granting one, for then it is a TGT in
      the user's name, and an ordinary service ticket takes the flag from the request. */
  lemma UntrustedEscapesIffTgs(cfg: Config, dir: Directory, ledger: Ledger, i: nat, target: Name, now: Time)
    requires now > ZERO_TIME && i < |ledger| && Lawful(cfg, dir.names, ledger, i)
    requires ledger[i].origin.S4U2Self? && !ledger[i].origin.trusted
    requires ForwardingAllowed(cfg, dir, ledger[i].ticket.client, target, now)
    requires Refusal(ledger[i].ticket, now, cfg.clockSkew, false) == None
    ensures (exists req: TgsRequest :: MakesForwardable(cfg, dir, ledger, req, i, now)) <==>
            IsTgsPrincipal(dir.names, ledger[i].ticket.sealedFor)
  {
    if req: TgsRequest :| MakesForwardable(cfg, dir, ledger, req, i, now) {
      ForwardingNeedsTgs(cfg, dir, ledger, req, i, now);
    }
    if name: Name :| name.IsTgs() && Answers(dir.names, name, ledger[i].ticket.sealedFor) {
      TgtBuysForwardable(cfg, dir, ledger, i, name, target, now);
    }
  }

  /** The check that a window is not empty comes before the clamp to the source ticket, so a derived
      ticket can be born with an empty window: it has a window exactly when its start lies before the
      end of what it was derived from. */
  lemma DerivedWindow(cfg: Config, dir: Directory, req: TgsRequest, tgt: Ticket, now: Time)
    requires dir.Valid() && ServiceReply(cfg, dir, req, tgt, now).Ok?
    ensures var t := ServiceReply(cfg, dir, req, tgt, now).value.ticket;
            var start := if req.body.options.postdated && req.body.from != ZERO_TIME then req.body.from else now;
            && t.startTime == start
            && (t.startTime < t.endTime <==> tgt.endTime == ZERO_TIME || start < tgt.endTime)
  {
  }

  /** The same for a delegated ticket and its evidence. */
  lemma DelegatedWindow(cfg: Config, dir: Directory, ledger: Ledger, req: TgsRequest, tgt: Ticket, now: Time)
    requires dir.Valid() && S4U2ProxyReply(cfg, dir, ledger, req, tgt, now).Ok?
    ensures var t := S4U2ProxyReply(cfg, dir, ledger, req, tgt, now).value.ticket;
            var inner := ledger[req.evidence.value.index].ticket;
            var start := if req.body.options.postdated && req.body.from != ZERO_TIME then req.body.from else now;
            && t.startTime == start
            && (t.startTime < t.endTime <==> inner.endTime == ZERO_TIME || start < inner.endTime)
  {
  }

  /** A ticket-granting ticket that has run out is still accepted for as long as the skew, and what it
      buys then has an empty window. */
  lemma EmptyWindowInTheSkew(cfg: Config, dir: Directory, ledger: Ledger, i: nat, name: Name, target: Name, now: Time)
    requires dir.Valid() && i < |ledger| && cfg.maxTicketLife > 0
    requires name.IsTgs() && Answers(dir.names, name, ledger[i].ticket.sealedFor)
    requires ZERO_TIME < ledger[i].ticket.endTime <= now <= ledger[i].ticket.endTime + cfg.clockSkew
    requires ledger[i].ticket.startTime <= now && !ledger[i].ticket.flags.invalid
    requires LoadRules(cfg, dir, ledger[i].ticket.client, now).Ok?
    requires Load(dir, target, UnknownServer, now).Ok? && target.realm == cfg.realm
    requires !target.IsTgs() && target.components != []
    ensures var reply := TgsReply(cfg, dir, ledger, ForwardRequest(i, name, target), now);
            reply.Ok? && reply.value.ticket.endTime <= reply.value.ticket.startTime
  {
    var req := ForwardRequest(i, name, target);
    assert Authenticate(cfg, dir, ledger, req, now) == Ok(ledger[i].ticket);
    DerivedWindow(cfg, dir, req, ledger[i].ticket, now);
  }
}
