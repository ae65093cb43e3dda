/** Runs of the ticket protocol: every sequence of AS, TGS, password-change and administrative steps,
    and what each of them can put in the ledger. */
module KdcRuns {
  import opened Names
  import opened Tickets
  import opened Kdc

  datatype State = State(dir: Directory, ledger: Ledger, clock: Time, changes: seq<Change>)

  datatype Action =
    | AsReq(as_: AsRequest)
    | TgsReq(tgs: TgsRequest)
    | PasswordReq(pw: PasswordRequest)
    | FromRemote(ticket: Ticket)
    | Administer(dir: Directory)

  datatype Event = Event(now: Time, action: Action)

  function Step(cfg: Config, s: State, e: Event): State
    requires s.dir.Valid()
  {
    var t := s.(clock := e.now);
    match e.action
    case AsReq(req) =>
      var reply := AsReply(cfg, s.dir, req, e.now).reply;
      if reply.Ok? then t.(ledger := s.ledger + [reply.value]) else t
    case TgsReq(req) =>
      var reply := TgsReply(cfg, s.dir, s.ledger, req, e.now);
      if reply.Ok? then t.(ledger := s.ledger + [reply.value]) else t
    case PasswordReq(req) =>
      var reply := PasswordReply(cfg, s.dir, s.ledger, req, e.now);
      if reply.Ok? then t.(changes := s.changes + [reply.value]) else t
    case FromRemote(ticket) => t.(ledger := s.ledger + [Entry(ticket, RemoteKdc, e.now)])
    case Administer(dir) => t.(dir := dir)
  }

  /** What the environment may do. The clock never goes back. A ticket this KDC did not mint can only
      be one another realm's KDC sealed with the key the two realms share, for a client that is not of
      this realm. An administrator may change any principal in any way, except which principal a name
      leads to. */
  ghost predicate Allowed(cfg: Config, s: State, e: Event) {
    && e.now >= s.clock
    && match e.action
       case FromRemote(ticket) =>
         && ticket.client.realm != cfg.realm
         && ticket.sealedFor in s.dir.principals && IsTgsPrincipal(s.dir.names, ticket.sealedFor)
       case Administer(dir) =>
         dir.Valid() && dir.names == s.dir.names && dir.principals.Keys == s.dir.principals.Keys
       case _ => true
  }

  /** Whether the events are a run from `s`, and the state they end in. */
  ghost predicate IsRun(cfg: Config, s: State, es: seq<Event>)
    requires s.dir.Valid()
    ensures IsRun(cfg, s, es) ==> After(cfg, s, es).dir.Valid()
    decreases |es|, 0
  {
    es == [] ||
    var before := es[..|es| - 1];
    IsRun(cfg, s, before) && Allowed(cfg, After(cfg, s, before), es[|es| - 1])
  }

  ghost function After(cfg: Config, s: State, es: seq<Event>): State
    requires s.dir.Valid()
    decreases |es|, 1
  {
    if es == [] then s
    else
      var before := After(cfg, s, es[..|es| - 1]);
      if before.dir.Valid() then Step(cfg, before, es[|es| - 1]) else before
  }

  ghost predicate Initial(s: State) {
    s.dir.Valid() && s.ledger == [] && s.changes == [] && s.clock > ZERO_TIME
  }

  // ----- What each step guarantees about the ticket it mints -----

  /** The presented TGT at position `j`: sealed for a ticket-granting principal and inside its window. */
  ghost predicate UsedAsTgt(cfg: Config, names: NameTable, ledger: Ledger, i: nat, j: nat)
    requires i < |ledger|
  {
    && j < i
    && IsTgsPrincipal(names, ledger[j].ticket.sealedFor)
    && InWindow(cfg, ledger[j].ticket, ledger[i].at)
  }

  predicate InWindow(cfg: Config, t: Ticket, now: Time) {
    && (t.startTime != ZERO_TIME ==> now + cfg.clockSkew >= t.startTime)
    && (t.endTime != ZERO_TIME ==> now - cfg.clockSkew <= t.endTime)
  }

  /** A ticket whose times and flags were decided afresh, as opposed to copied by a renewal or a
      validation. */
  predicate Fresh(e: Entry) {
    var t := e.ticket;
    && (t.flags.postdated <==> t.flags.invalid)
    && t.endTime > ZERO_TIME
    && (!t.flags.postdated ==> t.startTime == e.at)
    && (t.flags.postdated ==> t.startTime > ZERO_TIME)
    && (t.flags.renewable ==> t.endTime < t.renewTill)
    && (!t.flags.renewable ==> t.renewTill == ZERO_TIME)
  }

  /** A ticket derived from `src` on behalf of the same client. */
  predicate Inherits(e: Entry, src: Ticket) {
    var t := e.ticket;
    && t.client == src.client
    && t.flags.preAuthent == src.flags.preAuthent
    && t.authTime == (if src.authTime != ZERO_TIME then src.authTime else e.at)
    && !src.flags.invalid
    && (src.endTime != ZERO_TIME ==> t.endTime <= src.endTime)
  }

  /** What entry `i` owes to the step that minted it, whatever the principals' rules are. */
  ghost predicate Lawful(cfg: Config, names: NameTable, ledger: Ledger, i: nat)
    requires i < |ledger|
  {
    var e := ledger[i];
    var t := e.ticket;
    e.at > ZERO_TIME &&
    match e.origin
    case AsExchange(verified) =>
      && Fresh(e) && t.flags.initial && t.flags.preAuthent == verified
      && t.client.realm == cfg.realm && t.authTime == e.at && t.startTime < t.endTime
    case ServiceTicket(j) =>
      UsedAsTgt(cfg, names, ledger, i, j) && Fresh(e) && Inherits(e, ledger[j].ticket) && !t.flags.initial
    case S4U2Self(j, trusted) =>
      && UsedAsTgt(cfg, names, ledger, i, j) && Fresh(e) && !ledger[j].ticket.flags.invalid
      && Answers(names, ledger[j].ticket.client, t.sealedFor)
      && !t.flags.initial && !t.flags.preAuthent
      && (!trusted ==> !t.flags.forwardable)
      && t.client.realm == cfg.realm && t.authTime == e.at && t.startTime < t.endTime
    case S4U2Proxy(j, k) =>
      && UsedAsTgt(cfg, names, ledger, i, j) && !ledger[j].ticket.flags.invalid
      && k < i && InWindow(cfg, ledger[k].ticket, e.at)
      && Answers(names, ledger[j].ticket.client, ledger[k].ticket.sealedFor)
      && Fresh(e) && Inherits(e, ledger[k].ticket) && !t.flags.initial
      && ledger[k].ticket.flags.forwardable && t.flags.forwardable
    case Renewal(j) =>
      && UsedAsTgt(cfg, names, ledger, i, j)
      && var src := ledger[j].ticket;
      && src.flags.renewable && src.renewTill > e.at
      && t == src.(server := t.server, flags := src.flags.(initial := false), startTime := e.at, endTime := t.endTime)
      && ZERO_TIME < t.endTime <= src.renewTill
    case Validation(j) =>
      && UsedAsTgt(cfg, names, ledger, i, j)
      && var src := ledger[j].ticket;
      && src.flags.invalid
      && t == src.(server := t.server, flags := src.flags.(invalid := false))
    case RemoteKdc =>
      t.client.realm != cfg.realm && IsTgsPrincipal(names, t.sealedFor)
  }

  ghost predicate AllLawful(cfg: Config, names: NameTable, ledger: Ledger) {
    forall i: nat | i < |ledger| :: Lawful(cfg, names, ledger, i)
  }

  lemma IssueFacts(cfg: Config, dir: Directory, req: TgsRequest, client: Name, wanted: Name,
                   source: Option<Ticket>, f: Forwardability, origin: Origin, now: Time)
    requires dir.Valid() && now > ZERO_TIME
    requires Issue(cfg, dir, req, client, wanted, source, f, now).Ok?
    ensures var t := Issue(cfg, dir, req, client, wanted, source, f, now).value;
            && Fresh(Entry(t, origin, now)) && t.client == client && !t.flags.initial
            && (source.Some? && !source.value.flags.invalid && source.value.client == client ==>
                  Inherits(Entry(t, origin, now), source.value))
            && (source.None? ==> !t.flags.preAuthent && t.authTime == now && t.startTime < t.endTime)
            && (f.Never? ==> !t.flags.forwardable) && (f.Always? ==> t.flags.forwardable)
  {
  }

  /** Entry `e` may be appended to the ledger. */
  ghost predicate Appends(cfg: Config, dir: Directory, ledger: Ledger, e: Entry) {
    e.ticket.sealedFor in dir.principals && Lawful(cfg, dir.names, ledger + [e], |ledger|)
  }

  /** `tgt` was presented and authenticated. */
  ghost predicate Holds(cfg: Config, dir: Directory, ledger: Ledger, req: TgsRequest, tgt: Ticket, now: Time) {
    && dir.Valid() && now > ZERO_TIME
    && Authenticate(cfg, dir, ledger, req, now) == Ok(tgt)
  }

  lemma TgtFacts(cfg: Config, dir: Directory, ledger: Ledger, req: TgsRequest, tgt: Ticket, now: Time, e: Entry)
    requires Holds(cfg, dir, ledger, req, tgt, now) && e.at == now
    ensures UsedAsTgt(cfg, dir.names, ledger + [e], |ledger|, req.tgt.index)
    ensures (ledger + [e])[req.tgt.index].ticket == tgt
    ensures !req.body.options.validate ==> !tgt.flags.invalid
  {
    assert req.tgt.name.IsTgs() && Answers(dir.names, req.tgt.name, tgt.sealedFor);
  }

  lemma ServiceMints(cfg: Config, dir: Directory, ledger: Ledger, req: TgsRequest, tgt: Ticket, now: Time)
    requires Holds(cfg, dir, ledger, req, tgt, now) && !req.body.options.validate
    requires ServiceReply(cfg, dir, req, tgt, now).Ok?
    ensures Appends(cfg, dir, ledger, ServiceReply(cfg, dir, req, tgt, now).value)
  {
    var e := ServiceReply(cfg, dir, req, tgt, now).value;
    TgtFacts(cfg, dir, ledger, req, tgt, now, e);
    IssueFacts(cfg, dir, req, tgt.client, Referred(cfg, dir, req).value, Some(tgt), AsRequested, e.origin, now);
  }

  lemma S4U2SelfMints(cfg: Config, dir: Directory, ledger: Ledger, req: TgsRequest, tgt: Ticket, now: Time)
    requires Holds(cfg, dir, ledger, req, tgt, now) && !req.body.options.validate && req.forUser.Some?
    requires S4U2SelfReply(cfg, dir, req, tgt, now).Ok?
    ensures Appends(cfg, dir, ledger, S4U2SelfReply(cfg, dir, req, tgt, now).value)
    ensures cfg.allowS4U && req.forUserVerified && dir.Find(tgt.client).Some?
    ensures var p := dir.Find(tgt.client).value;
            p.rules.impersonate == [] || Listed(p.rules.impersonate, req.forUser.value)
  {
    var e := S4U2SelfReply(cfg, dir, req, tgt, now).value;
    TgtFacts(cfg, dir, ledger, req, tgt, now, e);
    IssueFacts(cfg, dir, req, req.forUser.value, req.target, None,
               if e.origin.trusted then UnlessBarred else Never, e.origin, now);
  }

  lemma S4U2ProxyMints(cfg: Config, dir: Directory, ledger: Ledger, req: TgsRequest, tgt: Ticket, now: Time)
    requires Holds(cfg, dir, ledger, req, tgt, now) && !req.body.options.validate
    requires S4U2ProxyReply(cfg, dir, ledger, req, tgt, now).Ok?
    ensures Appends(cfg, dir, ledger, S4U2ProxyReply(cfg, dir, ledger, req, tgt, now).value)
    ensures dir.Find(tgt.client).Some? && Listed(dir.Find(tgt.client).value.rules.delegateTo, req.target)
  {
    var e := S4U2ProxyReply(cfg, dir, ledger, req, tgt, now).value;
    var inner := Open(dir, ledger, req.evidence.value).value;
    TgtFacts(cfg, dir, ledger, req, tgt, now, e);
    assert (ledger + [e])[req.evidence.value.index].ticket == inner;
    IssueFacts(cfg, dir, req, inner.client, req.target, Some(inner), Always, e.origin, now);
  }

  lemma RenewMints(cfg: Config, dir: Directory, ledger: Ledger, req: TgsRequest, tgt: Ticket, now: Time)
    requires Holds(cfg, dir, ledger, req, tgt, now)
    requires RenewReply(cfg, dir, req, tgt, now).Ok?
    ensures Appends(cfg, dir, ledger, RenewReply(cfg, dir, req, tgt, now).value)
  {
    TgtFacts(cfg, dir, ledger, req, tgt, now, RenewReply(cfg, dir, req, tgt, now).value);
  }

  lemma ValidateMints(cfg: Config, dir: Directory, ledger: Ledger, req: TgsRequest, tgt: Ticket, now: Time)
    requires Holds(cfg, dir, ledger, req, tgt, now)
    requires ValidateReply(cfg, dir, req, tgt, now).Ok?
    ensures Appends(cfg, dir, ledger, ValidateReply(cfg, dir, req, tgt, now).value)
  {
    TgtFacts(cfg, dir, ledger, req, tgt, now, ValidateReply(cfg, dir, req, tgt, now).value);
  }

  /** Every ticket the TGS exchange mints is lawful, whatever combination of options asked for it. */
  lemma TgsMints(cfg: Config, dir: Directory, ledger: Ledger, req: TgsRequest, now: Time)
    requires dir.Valid() && now > ZERO_TIME
    requires TgsReply(cfg, dir, ledger, req, now).Ok?
    ensures Appends(cfg, dir, ledger, TgsReply(cfg, dir, ledger, req, now).value)
  {
    var tgt := Authenticate(cfg, dir, ledger, req, now).value;
    var o := req.body.options;
    if o.renew { RenewMints(cfg, dir, ledger, req, tgt, now); }
    else if o.validate { ValidateMints(cfg, dir, ledger, req, tgt, now); }
    else if o.cnameInAddlTkt { S4U2ProxyMints(cfg, dir, ledger, req, tgt, now); }
    else if req.forUser.Some? { S4U2SelfMints(cfg, dir, ledger, req, tgt, now); }
    else { ServiceMints(cfg, dir, ledger, req, tgt, now); }
  }

  lemma AsMints(cfg: Config, dir: Directory, ledger: Ledger, req: AsRequest, now: Time)
    requires dir.Valid() && now > ZERO_TIME
    requires AsReply(cfg, dir, req, now).reply.Ok?
    ensures Appends(cfg, dir, ledger, AsReply(cfg, dir, req, now).reply.value)
    ensures AsReply(cfg, dir, req, now).reply.value.origin.AsExchange?
  {
  }

  // ----- The invariant of every run -----

  /** A password change rests on an INITIAL ticket of its subject, sealed for the password service. */
  ghost predicate Justified(names: NameTable, ledger: Ledger, c: Change) {
    && c.ticket < |ledger|
    && ledger[c.ticket].ticket.flags.initial
    && ledger[c.ticket].ticket.client == c.subject
    && exists name: Name :: name.IsChangePw() && Answers(names, name, ledger[c.ticket].ticket.sealedFor)
  }

  /** Tickets enter the ledger in the order of their instants, none of which is past the clock. */
  predicate Chronological(ledger: Ledger, clock: Time) {
    && (forall i, j | 0 <= i < j < |ledger| :: ledger[i].at <= ledger[j].at)
    && (forall i | 0 <= i < |ledger| :: ledger[i].at <= clock)
  }

  ghost predicate Inv(cfg: Config, s: State) {
    && s.dir.Valid() && s.clock > ZERO_TIME
    && AllLawful(cfg, s.dir.names, s.ledger)
    && Chronological(s.ledger, s.clock)
    && (forall e <- s.ledger :: e.ticket.sealedFor in s.dir.principals)
    && (forall c <- s.changes :: Justified(s.dir.names, s.ledger, c))
  }

  lemma LawfulPrefix(cfg: Config, names: NameTable, ledger: Ledger, e: Entry, i: nat)
    requires i < |ledger| && Lawful(cfg, names, ledger, i)
    ensures Lawful(cfg, names, ledger + [e], i)
  {
    var next := ledger + [e];
    assert forall j | 0 <= j <= i :: next[j] == ledger[j];
  }

  lemma AppendKeepsInv(cfg: Config, s: State, e: Entry, now: Time)
    requires Inv(cfg, s) && e.at == now >= s.clock && Appends(cfg, s.dir, s.ledger, e)
    ensures Inv(cfg, s.(ledger := s.ledger + [e], clock := now))
  {
    var next := s.ledger + [e];
    forall i: nat | i < |next| ensures Lawful(cfg, s.dir.names, next, i) {
      if i < |s.ledger| { LawfulPrefix(cfg, s.dir.names, s.ledger, e, i); }
    }
    forall c <- s.changes ensures Justified(s.dir.names, next, c) {
      assert next[c.ticket] == s.ledger[c.ticket];
    }
  }

  lemma AsKeepsInv(cfg: Config, s: State, req: AsRequest, now: Time)
    requires Inv(cfg, s) && now >= s.clock
    ensures Inv(cfg, Step(cfg, s, Event(now, AsReq(req))))
  {
    var reply := AsReply(cfg, s.dir, req, now).reply;
    if reply.Ok? {
      AsMints(cfg, s.dir, s.ledger, req, now);
      AppendKeepsInv(cfg, s, reply.value, now);
    }
  }

  lemma TgsKeepsInv(cfg: Config, s: State, req: TgsRequest, now: Time)
    requires Inv(cfg, s) && now >= s.clock
    ensures Inv(cfg, Step(cfg, s, Event(now, TgsReq(req))))
  {
    var reply := TgsReply(cfg, s.dir, s.ledger, req, now);
    if reply.Ok? {
      TgsMints(cfg, s.dir, s.ledger, req, now);
      AppendKeepsInv(cfg, s, reply.value, now);
    }
  }

  lemma PasswordKeepsInv(cfg: Config, s: State, req: PasswordRequest, now: Time)
    requires Inv(cfg, s) && now >= s.clock
    ensures Inv(cfg, Step(cfg, s, Event(now, PasswordReq(req))))
  {
    var reply := PasswordReply(cfg, s.dir, s.ledger, req, now);
    if reply.Ok? { assert Justified(s.dir.names, s.ledger, reply.value); }
  }

  lemma StepKeepsInv(cfg: Config, s: State, e: Event)
    requires Inv(cfg, s) && Allowed(cfg, s, e)
    ensures Inv(cfg, Step(cfg, s, e))
  {
    match e.action
    case AsReq(req) => AsKeepsInv(cfg, s, req, e.now);
    case TgsReq(req) => TgsKeepsInv(cfg, s, req, e.now);
    case FromRemote(ticket) => AppendKeepsInv(cfg, s, Entry(ticket, RemoteKdc, e.now), e.now);
    case PasswordReq(req) => PasswordKeepsInv(cfg, s, req, e.now);
    case Administer(_) =>
  }

  /** In every run, every ticket in the ledger is lawful and every password change is justified. */
  lemma {:induction false} RunInv(cfg: Config, s: State, es: seq<Event>)
    requires Initial(s) && IsRun(cfg, s, es)
    ensures Inv(cfg, After(cfg, s, es))
    ensures After(cfg, s, es).dir.names == s.dir.names
    decreases |es|
  {
    if es != [] {
      var before := es[..|es| - 1];
      RunInv(cfg, s, before);
      StepKeepsInv(cfg, After(cfg, s, before), es[|es| - 1]);
    }
  }

  // ----- Which event minted a ticket -----

  /** In state `s` the event mints this entry. */
  ghost predicate Mints(cfg: Config, s: State, ev: Event, e: Entry) {
    && s.dir.Valid() && ev.now == e.at
    && match ev.action
       case AsReq(req) => AsReply(cfg, s.dir, req, e.at).reply == Ok(e)
       case TgsReq(req) => TgsReply(cfg, s.dir, s.ledger, req, e.at) == Ok(e)
       case FromRemote(ticket) => e == Entry(ticket, RemoteKdc, e.at)
       case _ => false
  }

  /** The k-th event of the run, in the state it found, minted entry `i` of this ledger. */
  ghost predicate MintedAt(cfg: Config, s: State, es: seq<Event>, k: nat, ledger: Ledger, i: nat)
    requires s.dir.Valid() && i < |ledger|
  {
    && k < |es| && Mints(cfg, After(cfg, s, es[..k]), es[k], ledger[i])
    && After(cfg, s, es[..k]).dir.names == s.dir.names && After(cfg, s, es[..k]).ledger == ledger[..i]
  }

  lemma StepAppends(cfg: Config, s: State, e: Event)
    requires s.dir.Valid()
    ensures s.ledger <= Step(cfg, s, e).ledger && |Step(cfg, s, e).ledger| <= |s.ledger| + 1
    ensures |Step(cfg, s, e).ledger| == |s.ledger| + 1 ==> Mints(cfg, s, e, Step(cfg, s, e).ledger[|s.ledger|])
  {
  }

  lemma MintedBefore(cfg: Config, s: State, es: seq<Event>, k: nat, was: Ledger, ledger: Ledger, i: nat)
    requires s.dir.Valid() && es != [] && i < |was| && was <= ledger && MintedAt(cfg, s, es[..|es| - 1], k, was, i)
    ensures MintedAt(cfg, s, es, k, ledger, i)
  {
    assert es[..|es| - 1][..k] == es[..k] && was[..i] == ledger[..i];
  }

  /** The last event of a run leaves the ledger before it in place and mints what follows it. */
  lemma LastMints(cfg: Config, s: State, es: seq<Event>, i: nat)
    requires Initial(s) && IsRun(cfg, s, es) && es != [] && i < |After(cfg, s, es).ledger|
    ensures After(cfg, s, es[..|es| - 1]).ledger <= After(cfg, s, es).ledger
    ensures i >= |After(cfg, s, es[..|es| - 1]).ledger| ==> MintedAt(cfg, s, es, |es| - 1, After(cfg, s, es).ledger, i)
  {
    RunInv(cfg, s, es[..|es| - 1]);
    StepAppends(cfg, After(cfg, s, es[..|es| - 1]), es[|es| - 1]);
  }

  /** Every entry of the ledger was minted by an event of the run, from what the ledger held then. */
  lemma {:induction false} MintedBy(cfg: Config, s: State, es: seq<Event>, i: nat) returns (k: nat)
    requires Initial(s) && IsRun(cfg, s, es) && i < |After(cfg, s, es).ledger|
    ensures MintedAt(cfg, s, es, k, After(cfg, s, es).ledger, i)
    decreases |es|
  {
    LastMints(cfg, s, es, i);
    k := |es| - 1;
    if i < |After(cfg, s, es[..|es| - 1]).ledger| {
      k := MintedBy(cfg, s, es[..|es| - 1], i);
      MintedBefore(cfg, s, es, k, After(cfg, s, es[..|es| - 1]).ledger, After(cfg, s, es).ledger, i);
    }
  }

  // ----- What the principals' rules add, while they do not change -----

  function RulesFor(cfg: Config, dir: Directory, name: Name): Rules
    requires dir.Valid()
  {
    if name.realm == cfg.realm && dir.Find(name).Some? then dir.Find(name).value.rules else STAND_IN
  }

  /** The longest life a ticket for this client and this server may have. */
  function LifeFor(cfg: Config, dir: Directory, t: Ticket): int
    requires dir.Valid() && t.sealedFor in dir.principals
  {
    EffectiveLife(RulesFor(cfg, dir, t.client).maxTicketLife,
                  dir.principals[t.sealedFor].rules.maxTicketLife, cfg.maxTicketLife)
  }

  ghost predicate SameRules(a: Directory, b: Directory) {
    && a.names == b.names && a.principals.Keys == b.principals.Keys
    && forall id <- a.principals :: a.principals[id].rules == b.principals[id].rules
  }

  /** Nobody's rules change during the run. Accounts may still be locked, disabled or re-keyed. */
  ghost predicate RulesFixed(dir: Directory, es: seq<Event>) {
    forall e <- es :: e.action.Administer? ==> SameRules(dir, e.action.dir)
  }

  /** What an entry owes to the rules. A delegated ticket's FORWARDABLE flag is the one that does not
      come from the rules directly. */
  predicate Ruled(cfg: Config, dir: Directory, e: Entry)
    requires dir.Valid() && e.ticket.sealedFor in dir.principals
  {
    var t := e.ticket;
    && (e.origin.AsExchange? || e.origin.ServiceTicket? || e.origin.S4U2Self? ==>
          t.flags.forwardable && t.client.realm == cfg.realm ==>
          dir.Find(t.client).Some? && dir.Find(t.client).value.rules.allowForwardable)
    && (!e.origin.Validation? && !e.origin.RemoteKdc? ==> t.endTime <= t.startTime + LifeFor(cfg, dir, t))
    && (!e.origin.Renewal? && !e.origin.Validation? && !e.origin.RemoteKdc? && t.client.realm == cfg.realm ==>
          && dir.Find(t.client).Some?
          && (t.flags.renewable ==>
                dir.Find(t.client).value.rules.allowRenewable && dir.principals[t.sealedFor].rules.allowRenewable)
          && (t.flags.postdated ==> dir.Find(t.client).value.rules.allowPostdate))
  }

  lemma IssueRuled(cfg: Config, dir: Directory, req: TgsRequest, client: Name, wanted: Name,
                   source: Option<Ticket>, f: Forwardability, origin: Origin, now: Time)
    requires dir.Valid()
    requires Issue(cfg, dir, req, client, wanted, source, f, now).Ok?
    requires f.Always? ==> origin.S4U2Proxy?
    ensures var t := Issue(cfg, dir, req, client, wanted, source, f, now).value;
            t.sealedFor in dir.principals && Ruled(cfg, dir, Entry(t, origin, now))
  {
  }

  lemma TgsRuled(cfg: Config, dir: Directory, ledger: Ledger, req: TgsRequest, now: Time)
    requires dir.Valid()
    requires TgsReply(cfg, dir, ledger, req, now).Ok?
    ensures var e := TgsReply(cfg, dir, ledger, req, now).value;
            e.ticket.sealedFor in dir.principals && Ruled(cfg, dir, e)
  {
    var e := TgsReply(cfg, dir, ledger, req, now).value;
    var tgt := Authenticate(cfg, dir, ledger, req, now).value;
    var o := req.body.options;
    if o.renew || o.validate {
    } else if o.cnameInAddlTkt {
      var inner := Open(dir, ledger, req.evidence.value).value;
      IssueRuled(cfg, dir, req, inner.client, req.target, Some(inner), Always, e.origin, now);
    } else if req.forUser.Some? {
      IssueRuled(cfg, dir, req, req.forUser.value, req.target, None,
                 if e.origin.trusted then UnlessBarred else Never, e.origin, now);
    } else {
      IssueRuled(cfg, dir, req, tgt.client, Referred(cfg, dir, req).value, Some(tgt), AsRequested, e.origin, now);
    }
  }

  lemma RuledUnderSameRules(cfg: Config, a: Directory, b: Directory, e: Entry)
    requires a.Valid() && b.Valid() && SameRules(a, b)
    requires e.ticket.sealedFor in b.principals && Ruled(cfg, b, e)
    ensures Ruled(cfg, a, e)
  {
  }

  ghost predicate AllRuled(cfg: Config, dir: Directory, ledger: Ledger)
    requires dir.Valid()
  {
    forall e <- ledger :: e.ticket.sealedFor in dir.principals && Ruled(cfg, dir, e)
  }

  /** What the AS exchange mints keeps to the rules of the directory it read. */
  lemma InitialRuled(cfg: Config, dir: Directory, req: AsRequest, now: Time)
    requires dir.Valid() && AsReply(cfg, dir, req, now).reply.Ok?
    ensures var e := AsReply(cfg, dir, req, now).reply.value; e.ticket.sealedFor in dir.principals && Ruled(cfg, dir, e)
  {
    var client := dir.Find(Name(req.cname, cfg.realm)).value;
    assert dir.Find(client.canonical) == Some(client);
  }

  lemma AsRuled(cfg: Config, base: Directory, dir: Directory, req: AsRequest, now: Time)
    requires base.Valid() && dir.Valid() && SameRules(base, dir) && AsReply(cfg, dir, req, now).reply.Ok?
    ensures AllRuled(cfg, base, [AsReply(cfg, dir, req, now).reply.value])
  {
    InitialRuled(cfg, dir, req, now);
    RuledUnderSameRules(cfg, base, dir, AsReply(cfg, dir, req, now).reply.value);
  }

  lemma StepRuled(cfg: Config, base: Directory, s: State, e: Event)
    requires Inv(cfg, s) && Allowed(cfg, s, e) && base.Valid()
    requires SameRules(base, s.dir) && (e.action.Administer? ==> SameRules(base, e.action.dir))
    requires AllRuled(cfg, base, s.ledger)
    ensures SameRules(base, Step(cfg, s, e).dir) && AllRuled(cfg, base, Step(cfg, s, e).ledger)
  {
    match e.action
    case AsReq(req) =>
      if AsReply(cfg, s.dir, req, e.now).reply.Ok? { AsRuled(cfg, base, s.dir, req, e.now); }
    case TgsReq(req) =>
      var reply := TgsReply(cfg, s.dir, s.ledger, req, e.now);
      if reply.Ok? {
        TgsRuled(cfg, s.dir, s.ledger, req, e.now);
        RuledUnderSameRules(cfg, base, s.dir, reply.value);
      }
    case _ =>
  }

  lemma {:induction false} RunRuled(cfg: Config, s: State, es: seq<Event>)
    requires Initial(s) && IsRun(cfg, s, es) && RulesFixed(s.dir, es)
    ensures SameRules(s.dir, After(cfg, s, es).dir) && AllRuled(cfg, s.dir, After(cfg, s, es).ledger)
    decreases |es|
  {
    if es != [] {
      var before := es[..|es| - 1];
      RunRuled(cfg, s, before);
      RunInv(cfg, s, before);
      assert es[|es| - 1] in es;
      StepRuled(cfg, s.dir, After(cfg, s, before), es[|es| - 1]);
    }
  }
}
