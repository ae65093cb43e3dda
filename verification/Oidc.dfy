/** Sign-in sessions and single-use authorization codes (internal/oidc/session.go, code.go, authorize.go
    and token.go), request by request. Random ids come with the request, and so do the clock readings
    a request makes and what the directory says of the account. */
module Oidc {

  type Time = nat

  datatype Option<T> = None | Some(value: T)

  datatype Client = Client(redirects: seq<string>, secret: string)

  datatype Config = Config(
    clients: map<string, Client>,
    lifetime: int, idle: int,       // of a session; zero or less is no limit
    codeTimeout: int, pendingTimeout: int,
    s256: string -> string)

  datatype Session = Session(subject: string, signedIn: Time, lastUsed: Time)

  /** An authorization request that has passed its checks. */
  datatype Request = Request(client: string, redirect: string, challenge: string, nonce: string)

  datatype Pending = Pending(request: Request, issued: Time)

  datatype Code = Code(request: Request, subject: string, authTime: Time, issued: Time)

  datatype State = State(sessions: map<string, Session>, codes: map<string, Code>, pending: map<string, Pending>)

  datatype Event =
    | Authorize(client: string, redirect: string, responseType: string, challengeMethod: string, challenge: string,
                nonce: string, login: bool, none: bool, cookie: string, newId: string, at: Time, later: Time)
    | Login(req: string, granted: bool, subject: string, sessionId: string, newId: string,
            at: Time, started: Time, later: Time)
    | Token(client: string, secret: string, code: string, redirect: string, verifier: string, active: bool,
            at: Time, later: Time)
    | Logout(cookie: string, at: Time, later: Time)

  datatype Output =
    | Refused
    | Ended
    | Asked(id: string, pending: Pending)
    | Redirected(id: string, code: Code)
    | Response(audience: string, subject: string, nonce: string, authTime: Time, issuedAt: Time)

  const EMPTY := State(map[], map[], map[])

  // ----- The tables -----

  predicate Expired(cfg: Config, s: Session, now: Time) {
    || (cfg.lifetime > 0 && now - s.signedIn > cfg.lifetime)
    || (cfg.idle > 0 && now - s.lastUsed > cfg.idle)
  }

  function SweptSessions(cfg: Config, ss: map<string, Session>, now: Time): map<string, Session> {
    map id | id in ss && !Expired(cfg, ss[id], now) :: ss[id]
  }

  function Live(cfg: Config, ss: map<string, Session>, cookie: string, now: Time): Option<Session> {
    if cookie == "" || cookie !in ss || Expired(cfg, ss[cookie], now) then None
    else Some(ss[cookie].(lastUsed := now))
  }

  /** The sessions after one was asked for: used again, or dropped because it has expired. */
  function Touched(cfg: Config, ss: map<string, Session>, cookie: string, now: Time): map<string, Session> {
    if cookie == "" || cookie !in ss then ss
    else if Live(cfg, ss, cookie, now).None? then ss - {cookie}
    else ss[cookie := Live(cfg, ss, cookie, now).value]
  }

  function Started(cfg: Config, ss: map<string, Session>, id: string, subject: string, now: Time): map<string, Session> {
    SweptSessions(cfg, ss[id := Session(subject, now, now)], now)
  }

  function SweptCodes(cfg: Config, cs: map<string, Code>, now: Time): map<string, Code> {
    map id | id in cs && now - cs[id].issued <= cfg.codeTimeout :: cs[id]
  }

  function Issued(cfg: Config, cs: map<string, Code>, id: string, code: Code, now: Time): map<string, Code> {
    SweptCodes(cfg, cs, now)[id := code]
  }

  /** A code as it is taken: gone whatever comes of it. */
  function Taken(cfg: Config, cs: map<string, Code>, id: string, now: Time): Option<Code> {
    if id in cs && now - cs[id].issued <= cfg.codeTimeout then Some(cs[id]) else None
  }

  function Put(cfg: Config, ps: map<string, Pending>, id: string, p: Pending, now: Time): map<string, Pending> {
    (map i | i in ps && now - ps[i].issued <= cfg.pendingTimeout :: ps[i])[id := p]
  }

  function Awaiting(cfg: Config, ps: map<string, Pending>, id: string, now: Time): Option<Pending> {
    if id in ps && now - ps[id].issued <= cfg.pendingTimeout then Some(ps[id]) else None
  }

  // ----- The requests -----

  predicate Acceptable(cfg: Config, e: Event)
    requires e.Authorize?
  {
    && e.client in cfg.clients && e.redirect in cfg.clients[e.client].redirects
    && e.responseType == "code" && e.challengeMethod == "S256" && e.challenge != ""
  }

  function RequestOf(e: Event): Request
    requires e.Authorize?
  {
    Request(e.client, e.redirect, e.challenge, e.nonce)
  }

  function DoAuthorize(cfg: Config, s: State, e: Event): (State, Output)
    requires e.Authorize?
  {
    if !Acceptable(cfg, e) then (s, Refused)
    else
      var live := Live(cfg, s.sessions, e.cookie, e.at);
      var touched := s.(sessions := Touched(cfg, s.sessions, e.cookie, e.at));
      if live.Some? && !e.login then
        var code := Code(RequestOf(e), live.value.subject, live.value.signedIn, e.later);
        (touched.(codes := Issued(cfg, s.codes, e.newId, code, e.later)), Redirected(e.newId, code))
      else if e.none then (touched, Refused)
      else
        var p := Pending(RequestOf(e), e.later);
        (touched.(pending := Put(cfg, s.pending, e.newId, p, e.later)), Asked(e.newId, p))
  }

  function DoLogin(cfg: Config, s: State, e: Event): (State, Output)
    requires e.Login?
  {
    var p := Awaiting(cfg, s.pending, e.req, e.at);
    if p.None? || !e.granted then (s, Refused)
    else
      var code := Code(p.value.request, e.subject, e.started, e.later);
      (State(Started(cfg, s.sessions, e.sessionId, e.subject, e.started),
             Issued(cfg, s.codes, e.newId, code, e.later), s.pending - {e.req}),
       Redirected(e.newId, code))
  }

  /** The client exchanging is known, and presents its secret or none where it has none. */
  predicate Authentic(cfg: Config, e: Event)
    requires e.Token?
  {
    e.client in cfg.clients && e.secret == cfg.clients[e.client].secret
  }

  predicate Verifies(cfg: Config, challenge: string, verifier: string) {
    challenge != "" && verifier != "" && challenge == cfg.s256(verifier)
  }

  /** The exchange agrees with everything recorded when the code was issued. */
  predicate Matches(cfg: Config, e: Event, code: Code)
    requires e.Token?
  {
    && e.client == code.request.client && e.redirect == code.request.redirect
    && Verifies(cfg, code.request.challenge, e.verifier)
  }

  function DoToken(cfg: Config, s: State, e: Event): (State, Output)
    requires e.Token?
  {
    if !Authentic(cfg, e) then (s, Refused)
    else
      var code := Taken(cfg, s.codes, e.code, e.at);
      var s' := s.(codes := s.codes - {e.code});
      if code.None? || !Matches(cfg, e, code.value) || !e.active then (s', Refused)
      else (s', Response(code.value.request.client, code.value.subject, code.value.request.nonce, code.value.authTime, e.later))
  }

  function Step(cfg: Config, s: State, e: Event): (State, Output) {
    match e
    case Authorize(_, _, _, _, _, _, _, _, _, _, _, _) => DoAuthorize(cfg, s, e)
    case Login(_, _, _, _, _, _, _, _) => DoLogin(cfg, s, e)
    case Token(_, _, _, _, _, _, _, _) => DoToken(cfg, s, e)
    case Logout(cookie, _, _) => (s.(sessions := if cookie == "" then s.sessions else s.sessions - {cookie}), Ended)
  }

  // ----- Runs -----

  function After(cfg: Config, es: seq<Event>): State {
    if es == [] then EMPTY else Step(cfg, After(cfg, es[..|es| - 1]), es[|es| - 1]).0
  }

  /** The state the k-th request finds, and its answer. */
  function Before(cfg: Config, es: seq<Event>, k: nat): State
    requires k <= |es|
  {
    After(cfg, es[..k])
  }

  function Answer(cfg: Config, es: seq<Event>, k: nat): Output
    requires k < |es|
  {
    Step(cfg, Before(cfg, es, k), es[k]).1
  }

  predicate TakesId(e: Event) {
    e.Authorize? || e.Login?
  }

  /** The clock never goes back, and the random ids are new. */
  predicate IsRun(es: seq<Event>) {
    && (forall i | 0 <= i < |es| :: es[i].at <= es[i].later)
    && (forall i | 0 <= i < |es| && es[i].Login? :: es[i].at <= es[i].started <= es[i].later)
    && (forall i, j | 0 <= i < j < |es| :: es[i].later <= es[j].at)
    && (forall i, j | 0 <= i < j < |es| && TakesId(es[i]) && TakesId(es[j]) :: es[i].newId != es[j].newId)
    && (forall i, j | 0 <= i < j < |es| && es[i].Login? && es[j].Login? :: es[i].sessionId != es[j].sessionId)
  }

  lemma BeforeNext(cfg: Config, es: seq<Event>, k: nat)
    requires k < |es|
    ensures Before(cfg, es, k + 1) == Step(cfg, Before(cfg, es, k), es[k]).0
  {
    assert es[..k + 1][..k] == es[..k];
  }

  // ----- What the history says -----

  predicate Issues(cfg: Config, es: seq<Event>, k: nat, id: string, code: Code) {
    k < |es| && Answer(cfg, es, k) == Redirected(id, code)
  }

  predicate Asks(cfg: Config, es: seq<Event>, k: nat, id: string, p: Pending) {
    k < |es| && Answer(cfg, es, k) == Asked(id, p)
  }

  /** The k-th request is a sign-in that was granted and started this session. */
  predicate SignsIn(cfg: Config, es: seq<Event>, k: nat, id: string, subject: string, at: Time) {
    && k < |es| && es[k].Login? && es[k].granted && Answer(cfg, es, k).Redirected?
    && es[k].sessionId == id && es[k].subject == subject && es[k].started == at
  }

  predicate Uses(es: seq<Event>, k: nat, id: string, at: Time) {
    && k < |es|
    && ((es[k].Login? && es[k].sessionId == id && es[k].started == at)
        || (es[k].Authorize? && es[k].cookie == id && es[k].at == at))
  }

  /** The k-th request is an exchange that spends the code, well or badly. */
  predicate Spends(cfg: Config, es: seq<Event>, k: nat, id: string) {
    k < |es| && es[k].Token? && es[k].code == id && Authentic(cfg, es[k])
  }

  // ----- Where the entries of the tables come from -----

  /** One request: an entry of a table was there, or the request made it. */
  lemma CodeSource(cfg: Config, s: State, e: Event, id: string)
    requires id in Step(cfg, s, e).0.codes
    ensures var code := Step(cfg, s, e).0.codes[id];
            (id in s.codes && s.codes[id] == code) || Step(cfg, s, e).1 == Redirected(id, code)
  {
  }

  lemma PendingSource(cfg: Config, s: State, e: Event, id: string)
    requires id in Step(cfg, s, e).0.pending
    ensures var p := Step(cfg, s, e).0.pending[id];
            (id in s.pending && s.pending[id] == p) || Step(cfg, s, e).1 == Asked(id, p)
  {
  }

  predicate Kept(was: Session, now: Session) {
    was.subject == now.subject && was.signedIn == now.signedIn
  }

  lemma SessionSource(cfg: Config, s: State, e: Event, id: string)
    requires id in Step(cfg, s, e).0.sessions
    ensures var sess := Step(cfg, s, e).0.sessions[id];
            || (id in s.sessions && s.sessions[id] == sess)
            || (e.Authorize? && e.cookie == id && id in s.sessions && Kept(s.sessions[id], sess) && sess.lastUsed == e.at)
            || (e.Login? && e.granted && e.sessionId == id && sess == Session(e.subject, e.started, e.started) && Step(cfg, s, e).1.Redirected?)
  {
  }

  lemma {:induction false} CodeKnown(cfg: Config, es: seq<Event>, n: nat, id: string) returns (k: nat)
    requires n <= |es| && id in Before(cfg, es, n).codes
    ensures k < n && Issues(cfg, es, k, id, Before(cfg, es, n).codes[id])
    decreases n
  {
    BeforeNext(cfg, es, n - 1);
    var s := Before(cfg, es, n - 1);
    var code := Before(cfg, es, n).codes[id];
    CodeSource(cfg, s, es[n - 1], id);
    if id in s.codes && s.codes[id] == code {
      k := CodeKnown(cfg, es, n - 1, id);
    } else {
      k := n - 1;
    }
  }

  lemma {:induction false} PendingKnown(cfg: Config, es: seq<Event>, n: nat, id: string) returns (k: nat)
    requires n <= |es| && id in Before(cfg, es, n).pending
    ensures k < n && Asks(cfg, es, k, id, Before(cfg, es, n).pending[id])
    decreases n
  {
    BeforeNext(cfg, es, n - 1);
    var s := Before(cfg, es, n - 1);
    var p := Before(cfg, es, n).pending[id];
    PendingSource(cfg, s, es[n - 1], id);
    if id in s.pending && s.pending[id] == p {
      k := PendingKnown(cfg, es, n - 1, id);
    } else {
      k := n - 1;
    }
  }

  /** A session in the table was started by a sign-in, and last used by a request of its own. */
  lemma {:induction false} SessionKnown(cfg: Config, es: seq<Event>, n: nat, id: string) returns (k: nat, u: nat)
    requires n <= |es| && id in Before(cfg, es, n).sessions
    ensures var s := Before(cfg, es, n).sessions[id];
            k <= u < n && SignsIn(cfg, es, k, id, s.subject, s.signedIn) && Uses(es, u, id, s.lastUsed)
    decreases n
  {
    BeforeNext(cfg, es, n - 1);
    var s := Before(cfg, es, n - 1);
    var sess := Before(cfg, es, n).sessions[id];
    SessionSource(cfg, s, es[n - 1], id);
    if id in s.sessions && s.sessions[id] == sess {
      k, u := SessionKnown(cfg, es, n - 1, id);
    } else {
      k := n - 1;
      if es[n - 1].Authorize? {
        k, u := SessionKnown(cfg, es, n - 1, id);
      }
      u := n - 1;
    }
  }

  // ----- What stands behind a code -----

  /** The m-th request asked for what the code was issued for, and was in order. */
  predicate Requested(cfg: Config, es: seq<Event>, m: nat, r: Request) {
    m < |es| && es[m].Authorize? && Acceptable(cfg, es[m]) && RequestOf(es[m]) == r
  }

  /** Some sign-in of the subject happened at that instant. */
  predicate SignedIn(cfg: Config, es: seq<Event>, l: nat, subject: string, at: Time) {
    && l < |es| && es[l].Login? && es[l].granted && Answer(cfg, es, l).Redirected?
    && es[l].subject == subject && es[l].started == at
  }

  /** The two clock readings of every request are at most `delay` apart. */
  predicate Prompt(es: seq<Event>, delay: nat) {
    forall i | 0 <= i < |es| :: es[i].later - es[i].at <= delay
  }

  /** The request that issued the code did so for one authorization request and one sign-in: its own request
      and the sign-in that started the session of its cookie, or the request that was waiting behind its
      form and its own sign-in. */
  predicate Backs(cfg: Config, es: seq<Event>, k: nat, m: nat, l: nat, code: Code) {
    && k < |es| && m <= k && l <= k
    && Requested(cfg, es, m, code.request) && SignedIn(cfg, es, l, code.subject, code.authTime)
    && ((m == k && SignsIn(cfg, es, l, es[k].cookie, code.subject, code.authTime))
        || (l == k && Answer(cfg, es, m).Asked? && Answer(cfg, es, m).id == es[k].req))
  }

  lemma IssuedByAuthorize(cfg: Config, es: seq<Event>, k: nat, id: string, code: Code, delay: nat) returns (l: nat)
    requires IsRun(es) && Prompt(es, delay) && Issues(cfg, es, k, id, code) && es[k].Authorize?
    ensures Backs(cfg, es, k, k, l, code)
    ensures cfg.lifetime > 0 ==> code.issued - code.authTime <= cfg.lifetime + delay
  {
    var s := Before(cfg, es, k).sessions;
    var u;
    l, u := SessionKnown(cfg, es, k, es[k].cookie);
  }

  lemma IssuedByLogin(cfg: Config, es: seq<Event>, k: nat, id: string, code: Code, delay: nat) returns (m: nat)
    requires IsRun(es) && Prompt(es, delay) && Issues(cfg, es, k, id, code) && es[k].Login?
    ensures Backs(cfg, es, k, m, k, code)
    ensures cfg.lifetime > 0 ==> code.issued - code.authTime <= cfg.lifetime + delay
  {
    m := PendingKnown(cfg, es, k, es[k].req);
  }

  /** The client is registered, and so is the redirect for it; and a challenge is there to be met. */
  predicate Registered(cfg: Config, r: Request) {
    && r.client in cfg.clients && r.challenge != ""
    && exists i | 0 <= i < |cfg.clients[r.client].redirects| :: cfg.clients[r.client].redirects[i] == r.redirect
  }

  /** The m-th request asked for a code, with S256, for exactly this. */
  predicate AskedFor(es: seq<Event>, m: nat, r: Request) {
    && m < |es| && es[m].Authorize? && es[m].responseType == "code" && es[m].challengeMethod == "S256"
    && es[m].client == r.client && es[m].redirect == r.redirect && es[m].challenge == r.challenge && es[m].nonce == r.nonce
  }

  /** Whatever a run redirects with a code or keeps waiting behind a form is for a registered client and one
      of its own redirects, and was asked for as such. */
  lemma OnlyRegisteredIsServed(cfg: Config, es: seq<Event>, k: nat)
    requires IsRun(es) && k < |es|
    ensures Answer(cfg, es, k).Redirected? ==>
              var r := Answer(cfg, es, k).code.request; Registered(cfg, r) && exists m: nat :: m <= k && AskedFor(es, m, r)
    ensures Answer(cfg, es, k).Asked? ==>
              var r := Answer(cfg, es, k).pending.request; Registered(cfg, r) && AskedFor(es, k, r)
  {
    if Answer(cfg, es, k).Redirected? && es[k].Login? {
      var m := PendingKnown(cfg, es, k, es[k].req);
      var r := Answer(cfg, es, k).code.request;
      assert AskedFor(es, m, r);
    } else if Answer(cfg, es, k).Redirected? {
      assert AskedFor(es, k, Answer(cfg, es, k).code.request);
    }
  }

  /** Every code answers an authorization request that passed its checks, names somebody who signed in at
      the instant it says, in the session or through the form of that request, and was issued while that
      sign-in was good. */
  lemma CodeIsBacked(cfg: Config, es: seq<Event>, k: nat, id: string, code: Code, delay: nat)
    requires IsRun(es) && Prompt(es, delay) && Issues(cfg, es, k, id, code)
    ensures id == es[k].newId && code.issued == es[k].later
    ensures Registered(cfg, code.request) && exists m: nat, l: nat :: Backs(cfg, es, k, m, l, code)
    ensures cfg.lifetime > 0 ==> code.issued - code.authTime <= cfg.lifetime + delay
  {
    OnlyRegisteredIsServed(cfg, es, k);
    if es[k].Authorize? {
      var l := IssuedByAuthorize(cfg, es, k, id, code, delay);
    } else {
      var m := IssuedByLogin(cfg, es, k, id, code, delay);
    }
  }

  /** A code issued without asking: the session was started by a sign-in and used within the idle time. */
  lemma SilentOnlyWhileFresh(cfg: Config, es: seq<Event>, k: nat)
    requires IsRun(es) && k < |es| && es[k].Authorize? && Answer(cfg, es, k).Redirected?
    ensures !es[k].login
    ensures exists u: nat, used: Time ::
              u < k && Uses(es, u, es[k].cookie, used) && (cfg.idle > 0 ==> es[k].at - used <= cfg.idle)
  {
    var l, u := SessionKnown(cfg, es, k, es[k].cookie);
    assert Uses(es, u, es[k].cookie, Before(cfg, es, k).sessions[es[k].cookie].lastUsed);
  }

  // ----- Exactly when an exchange is answered -----

  /** The code was issued by the k-th request and no exchange has spent it before the n-th. */
  predicate Outstanding(cfg: Config, es: seq<Event>, k: nat, n: nat, id: string, code: Code) {
    k < n <= |es| && Issues(cfg, es, k, id, code) && forall j: nat | k < j < n :: !Spends(cfg, es, j, id)
  }

  /** One request keeps a code, unless it spends it, sweeps it away as too old, or issues it anew. */
  lemma CodeStays(cfg: Config, s: State, e: Event, id: string)
    requires id in s.codes && !(TakesId(e) && e.newId == id) && !(e.Token? && e.code == id && Authentic(cfg, e))
    requires e.later - s.codes[id].issued <= cfg.codeTimeout
    ensures id in Step(cfg, s, e).0.codes && Step(cfg, s, e).0.codes[id] == s.codes[id]
  {
  }

  lemma CodeIsStored(cfg: Config, s: State, e: Event, id: string, code: Code)
    requires Step(cfg, s, e).1 == Redirected(id, code)
    ensures TakesId(e) && e.newId == id && id in Step(cfg, s, e).0.codes && Step(cfg, s, e).0.codes[id] == code && code.issued == e.later
  {
  }

  /** The sweep takes nothing that could still have been exchanged. */
  lemma {:induction false} OutstandingIsStored(cfg: Config, es: seq<Event>, k: nat, n: nat, id: string, code: Code, now: Time)
    requires IsRun(es) && Outstanding(cfg, es, k, n, id, code) && now - code.issued <= cfg.codeTimeout
    requires forall i | k < i < n :: es[i].later <= now
    ensures id in Before(cfg, es, n).codes && Before(cfg, es, n).codes[id] == code
    decreases n
  {
    BeforeNext(cfg, es, n - 1);
    CodeIsStored(cfg, Before(cfg, es, k), es[k], id, code);
    if k < n - 1 {
      OutstandingIsStored(cfg, es, k, n - 1, id, code, now);
      assert !Spends(cfg, es, n - 1, id);
      CodeStays(cfg, Before(cfg, es, n - 1), es[n - 1], id);
    }
  }

  lemma CodeStaysGone(cfg: Config, s: State, e: Event, id: string)
    requires id !in s.codes || (e.Token? && e.code == id && Authentic(cfg, e))
    requires !(TakesId(e) && e.newId == id)
    ensures id !in Step(cfg, s, e).0.codes
  {
  }

  /** A code once spent is not in the table again. */
  lemma {:induction false} SpentIsGone(cfg: Config, es: seq<Event>, k: nat, j: nat, n: nat, id: string, code: Code)
    requires IsRun(es) && k < j < n <= |es| && Issues(cfg, es, k, id, code) && Spends(cfg, es, j, id)
    ensures id !in Before(cfg, es, n).codes
    decreases n
  {
    BeforeNext(cfg, es, n - 1);
    CodeIsStored(cfg, Before(cfg, es, k), es[k], id, code);
    if j < n - 1 { SpentIsGone(cfg, es, k, j, n - 1, id, code); }
    CodeStaysGone(cfg, Before(cfg, es, n - 1), es[n - 1], id);
  }

  /** The exchange is answered from this code. */
  predicate AnsweredFrom(cfg: Config, es: seq<Event>, k: nat, n: nat, code: Code) {
    && n < |es| && es[n].Token? && Outstanding(cfg, es, k, n, es[n].code, code)
    && es[n].at - code.issued <= cfg.codeTimeout
    && es[n].client == code.request.client && es[n].redirect == code.request.redirect
    && es[n].verifier != "" && code.request.challenge == cfg.s256(es[n].verifier)
  }

  /** The client is known and presents its own secret; one without a secret presents none. */
  predicate Proves(cfg: Config, e: Event)
    requires e.Token?
  {
    && e.client in cfg.clients
    && (cfg.clients[e.client].secret == "" ==> e.secret == "")
    && (cfg.clients[e.client].secret != "" ==> e.secret == cfg.clients[e.client].secret)
  }

  lemma StoredIsOutstanding(cfg: Config, es: seq<Event>, n: nat, id: string) returns (k: nat)
    requires IsRun(es) && n <= |es| && id in Before(cfg, es, n).codes
    ensures Outstanding(cfg, es, k, n, id, Before(cfg, es, n).codes[id])
  {
    k := CodeKnown(cfg, es, n, id);
    var code := Before(cfg, es, n).codes[id];
    forall j: nat | k < j < n ensures !Spends(cfg, es, j, id) {
      if Spends(cfg, es, j, id) { SpentIsGone(cfg, es, k, j, n, id, code); }
    }
  }

  lemma AnswerHasACode(cfg: Config, es: seq<Event>, n: nat) returns (k: nat, code: Code)
    requires IsRun(es) && n < |es| && es[n].Token? && Answer(cfg, es, n).Response?
    ensures AnsweredFrom(cfg, es, k, n, code)
    ensures Answer(cfg, es, n) == Response(code.request.client, code.subject, code.request.nonce, code.authTime, es[n].later)
  {
    code := Before(cfg, es, n).codes[es[n].code];
    k := StoredIsOutstanding(cfg, es, n, es[n].code);
  }

  lemma CodeIsAnswered(cfg: Config, es: seq<Event>, k: nat, n: nat, code: Code)
    requires IsRun(es) && AnsweredFrom(cfg, es, k, n, code) && Proves(cfg, es[n]) && es[n].active
    ensures Answer(cfg, es, n).Response?
  {
    OnlyRegisteredIsServed(cfg, es, k);
    OutstandingIsStored(cfg, es, k, n, es[n].code, code, es[n].at);
  }

  /** An exchange is answered exactly when the client proves who it is, the account is active, and the code
      was issued for this client, redirect and verifier, is in time, and was never presented before: a
      table that sweeps decides as one that never forgets. */
  lemma AnsweredIff(cfg: Config, es: seq<Event>, n: nat)
    requires IsRun(es) && n < |es| && es[n].Token?
    ensures Answer(cfg, es, n).Response? <==>
            Proves(cfg, es[n]) && es[n].active && exists k: nat, code :: AnsweredFrom(cfg, es, k, n, code)
  {
    if Answer(cfg, es, n).Response? {
      var k, code := AnswerHasACode(cfg, es, n);
    }
    if Proves(cfg, es[n]) && es[n].active && exists k: nat, code :: AnsweredFrom(cfg, es, k, n, code) {
      var k: nat, code :| AnsweredFrom(cfg, es, k, n, code);
      CodeIsAnswered(cfg, es, k, n, code);
    }
  }

  lemma IssuedOnce(cfg: Config, es: seq<Event>, i: nat, j: nat, id: string, a: Code, b: Code)
    requires IsRun(es) && Issues(cfg, es, i, id, a) && Issues(cfg, es, j, id, b)
    ensures i == j && a == b
  {
    CodeIsStored(cfg, Before(cfg, es, i), es[i], id, a);
    CodeIsStored(cfg, Before(cfg, es, j), es[j], id, b);
  }

  /** A code is good once: two exchanges answered for one code are one exchange. */
  lemma OneResponsePerCode(cfg: Config, es: seq<Event>, i: nat, j: nat)
    requires IsRun(es) && i <= j < |es| && es[i].Token? && es[j].Token? && es[i].code == es[j].code
    requires Answer(cfg, es, i).Response? && Answer(cfg, es, j).Response?
    ensures i == j
  {
    var k, a := AnswerHasACode(cfg, es, i);
    var l, b := AnswerHasACode(cfg, es, j);
    IssuedOnce(cfg, es, k, l, es[i].code, a, b);
    assert Spends(cfg, es, i, es[j].code);
  }

  /** The n-th request, an exchange, was answered from the code the k-th issued, for the authorization request
      and the sign-in behind that code. */
  predicate BackedBy(cfg: Config, es: seq<Event>, n: nat, k: nat, m: nat, l: nat, code: Code) {
    AnsweredFrom(cfg, es, k, n, code) && Backs(cfg, es, k, m, l, code)
  }

  /** What every token response says: it goes to the client the code was issued to, for the redirect and the
      challenge of the authorization request behind it, with that request's nonce; it names the subject
      of the sign-in behind it and its instant; and that sign-in is no older than a session and a code
      may be. */
  lemma ResponseIsBacked(cfg: Config, es: seq<Event>, n: nat, delay: nat)
    requires IsRun(es) && Prompt(es, delay) && n < |es| && es[n].Token? && Answer(cfg, es, n).Response?
    ensures var r := Answer(cfg, es, n);
            && r.audience == es[n].client && es[n].active && Proves(cfg, es[n])
            && (exists k: nat, m: nat, l: nat, code ::
                  && BackedBy(cfg, es, n, k, m, l, code)
                  && Registered(cfg, code.request) && code.request.redirect == es[n].redirect && AskedFor(es, m, code.request)
                  && es[m].client == r.audience && es[m].redirect == es[n].redirect && es[m].nonce == r.nonce
                  && es[m].challenge == cfg.s256(es[n].verifier)
                  && es[l].subject == r.subject && es[l].started == r.authTime)
            && (cfg.lifetime > 0 ==> r.issuedAt - r.authTime <= cfg.lifetime + cfg.codeTimeout + 2 * delay)
  {
    var k, code := AnswerHasACode(cfg, es, n);
    CodeIsBacked(cfg, es, k, es[n].code, code, delay);
    var m: nat, l: nat :| Backs(cfg, es, k, m, l, code);
    assert BackedBy(cfg, es, n, k, m, l, code);
    OnlyRegisteredIsServed(cfg, es, k);
  }

  // ----- Exactly when nobody is asked -----

  /** A sign-in that is still good: not too old, and not idle for too long. */
  predicate Fresh(cfg: Config, s: Session, now: Time) {
    && (cfg.lifetime <= 0 || now - s.signedIn <= cfg.lifetime)
    && (cfg.idle <= 0 || now - s.lastUsed <= cfg.idle)
  }

  /** What the history says of a session: started by a sign-in, kept by each use in time, ended by one too
      late or by signing out. Nothing is ever swept. */
  function Remembered(cfg: Config, es: seq<Event>, n: nat, id: string): Option<Session>
    requires n <= |es|
  {
    if n == 0 then None
    else
      var s, e := Remembered(cfg, es, n - 1, id), es[n - 1];
      if e.Logout? && e.cookie == id && id != "" then None
      else if e.Login? && e.sessionId == id && Answer(cfg, es, n - 1).Redirected? then Some(Session(e.subject, e.started, e.started))
      else if e.Authorize? && e.cookie == id && id != "" && Acceptable(cfg, e) then
        if s.Some? && Fresh(cfg, s.value, e.at) then Some(s.value.(lastUsed := e.at)) else None
      else s
  }

  function Lookup(ss: map<string, Session>, id: string): Option<Session> {
    if id in ss then Some(ss[id]) else None
  }

  /** One request does to a session what the history says, or sweeps it away when it is good no longer. */
  lemma SessionStep(cfg: Config, s: State, e: Event, id: string, was: Option<Session>)
    requires Lookup(s.sessions, id) == was && (e.Login? ==> e.started <= e.later) && e.at <= e.later
    ensures var next := Lookup(Step(cfg, s, e).0.sessions, id);
            if e.Logout? && e.cookie == id && id != "" then next == None
            else if e.Login? && e.sessionId == id && Step(cfg, s, e).1.Redirected? then next == Some(Session(e.subject, e.started, e.started))
            else if e.Authorize? && e.cookie == id && id != "" && Acceptable(cfg, e) then
              next == if was.Some? && Fresh(cfg, was.value, e.at) then Some(was.value.(lastUsed := e.at)) else None
            else next == was || (next == None && was.Some? && e.Login? && !Fresh(cfg, was.value, e.started))
  {
  }

  lemma {:induction false} SessionsAgree(cfg: Config, es: seq<Event>, n: nat, id: string)
    requires IsRun(es) && n <= |es|
    ensures id in Before(cfg, es, n).sessions ==> Remembered(cfg, es, n, id) == Some(Before(cfg, es, n).sessions[id])
    ensures var r := Remembered(cfg, es, n, id);
            r.Some? && id !in Before(cfg, es, n).sessions ==> n > 0 && !Fresh(cfg, r.value, es[n - 1].later)
    decreases n
  {
    if n > 0 {
      SessionsAgree(cfg, es, n - 1, id);
      BeforeNext(cfg, es, n - 1);
      var s := Before(cfg, es, n - 1);
      SessionStep(cfg, s, es[n - 1], id, Lookup(s.sessions, id));
    }
  }

  /** A code is given without asking exactly when the request is in order, does not ask for the form, and its
      cookie is of a session that the history says is still good: a table that sweeps decides as one
      that never forgets. */
  lemma SilentIff(cfg: Config, es: seq<Event>, k: nat)
    requires IsRun(es) && k < |es| && es[k].Authorize?
    ensures Answer(cfg, es, k).Redirected? <==>
            && Acceptable(cfg, es[k]) && !es[k].login && es[k].cookie != ""
            && Remembered(cfg, es, k, es[k].cookie).Some? && Fresh(cfg, Remembered(cfg, es, k, es[k].cookie).value, es[k].at)
  {
    SessionsAgree(cfg, es, k, es[k].cookie);
  }

  /** And otherwise a request in order is sent to the form, unless it forbids asking. */
  lemma AskedIff(cfg: Config, es: seq<Event>, k: nat)
    requires IsRun(es) && k < |es| && es[k].Authorize? && !Answer(cfg, es, k).Redirected?
    ensures Answer(cfg, es, k).Asked? <==> Acceptable(cfg, es[k]) && !es[k].none
    ensures Acceptable(cfg, es[k]) <==>
            Registered(cfg, RequestOf(es[k])) && es[k].responseType == "code" && es[k].challengeMethod == "S256"
  {
  }

  // ----- Exactly when a form signs in -----

  /** The k-th request signed in through this form. */
  predicate SignsThrough(cfg: Config, es: seq<Event>, k: nat, id: string) {
    k < |es| && es[k].Login? && es[k].req == id && Answer(cfg, es, k).Redirected?
  }

  /** The m-th request is waiting behind this form, and nobody has signed in through it before the n-th. */
  predicate Waiting(cfg: Config, es: seq<Event>, m: nat, n: nat, id: string, p: Pending) {
    m < n <= |es| && Asks(cfg, es, m, id, p) && forall j: nat | m < j < n :: !SignsThrough(cfg, es, j, id)
  }

  lemma PendingStays(cfg: Config, s: State, e: Event, id: string)
    requires id in s.pending && !(TakesId(e) && e.newId == id) && !(e.Login? && e.req == id && Step(cfg, s, e).1.Redirected?)
    requires e.later - s.pending[id].issued <= cfg.pendingTimeout
    ensures id in Step(cfg, s, e).0.pending && Step(cfg, s, e).0.pending[id] == s.pending[id]
  {
  }

  lemma PendingIsStored(cfg: Config, s: State, e: Event, id: string, p: Pending)
    requires Step(cfg, s, e).1 == Asked(id, p)
    ensures TakesId(e) && e.newId == id && id in Step(cfg, s, e).0.pending && Step(cfg, s, e).0.pending[id] == p && p.issued == e.later
  {
  }

  lemma PendingStaysGone(cfg: Config, s: State, e: Event, id: string)
    requires id !in s.pending || (e.Login? && e.req == id && Step(cfg, s, e).1.Redirected?)
    requires !(TakesId(e) && e.newId == id)
    ensures id !in Step(cfg, s, e).0.pending
  {
  }

  lemma {:induction false} WaitingIsStored(cfg: Config, es: seq<Event>, m: nat, n: nat, id: string, p: Pending, now: Time)
    requires IsRun(es) && Waiting(cfg, es, m, n, id, p) && now - p.issued <= cfg.pendingTimeout
    requires forall i | m < i < n :: es[i].later <= now
    ensures id in Before(cfg, es, n).pending && Before(cfg, es, n).pending[id] == p
    decreases n
  {
    BeforeNext(cfg, es, n - 1);
    PendingIsStored(cfg, Before(cfg, es, m), es[m], id, p);
    if m < n - 1 {
      WaitingIsStored(cfg, es, m, n - 1, id, p, now);
      assert !SignsThrough(cfg, es, n - 1, id);
      PendingStays(cfg, Before(cfg, es, n - 1), es[n - 1], id);
    }
  }

  /** The id of a waiting request is no other request's. */
  lemma OwnId(cfg: Config, es: seq<Event>, m: nat, id: string, p: Pending)
    requires IsRun(es) && Asks(cfg, es, m, id, p)
    ensures forall j | m < j < |es| :: !(TakesId(es[j]) && es[j].newId == id)
  {
    PendingIsStored(cfg, Before(cfg, es, m), es[m], id, p);
  }

  lemma {:induction false} SignedIsGone(cfg: Config, es: seq<Event>, m: nat, j: nat, n: nat, id: string, p: Pending)
    requires IsRun(es) && m < j < n <= |es| && Asks(cfg, es, m, id, p) && SignsThrough(cfg, es, j, id)
    ensures id !in Before(cfg, es, n).pending
    decreases n
  {
    BeforeNext(cfg, es, n - 1);
    OwnId(cfg, es, m, id, p);
    if j < n - 1 { SignedIsGone(cfg, es, m, j, n - 1, id, p); }
    PendingStaysGone(cfg, Before(cfg, es, n - 1), es[n - 1], id);
  }

  /** The form is in time: the m-th request waits behind it. */
  predicate InTime(cfg: Config, es: seq<Event>, m: nat, n: nat, p: Pending) {
    n < |es| && es[n].Login? && Waiting(cfg, es, m, n, es[n].req, p) && es[n].at - p.issued <= cfg.pendingTimeout
  }

  lemma StoredIsWaiting(cfg: Config, es: seq<Event>, n: nat, id: string) returns (m: nat)
    requires IsRun(es) && n <= |es| && id in Before(cfg, es, n).pending
    ensures Waiting(cfg, es, m, n, id, Before(cfg, es, n).pending[id])
  {
    m := PendingKnown(cfg, es, n, id);
    var p := Before(cfg, es, n).pending[id];
    forall j: nat | m < j < n ensures !SignsThrough(cfg, es, j, id) {
      if SignsThrough(cfg, es, j, id) { SignedIsGone(cfg, es, m, j, n, id, p); }
    }
  }

  /** A form signs in exactly when the credential is granted and an authorization request still waits behind
      it, in time; and the code it gives is for that request. */
  lemma SignsInIff(cfg: Config, es: seq<Event>, n: nat)
    requires IsRun(es) && n < |es| && es[n].Login?
    ensures Answer(cfg, es, n).Redirected? <==> es[n].granted && exists m: nat, p :: InTime(cfg, es, m, n, p)
    ensures Answer(cfg, es, n).Redirected? ==>
              exists m: nat, p :: InTime(cfg, es, m, n, p) && Answer(cfg, es, n).code.request == p.request
  {
    if Answer(cfg, es, n).Redirected? {
      var m := StoredIsWaiting(cfg, es, n, es[n].req);
      assert InTime(cfg, es, m, n, Before(cfg, es, n).pending[es[n].req]);
    }
    if es[n].granted && exists m: nat, p :: InTime(cfg, es, m, n, p) {
      var m: nat, p :| InTime(cfg, es, m, n, p);
      WaitingIsStored(cfg, es, m, n, es[n].req, p, es[n].at);
    }
  }

  // ----- What the tables do not keep -----

  /** Right after a code is issued no code in the table is past its time, after a request is kept no waiting one
      is, and after a sign-in no session is. */
  lemma TablesAreSwept(cfg: Config, s: State, e: Event)
    requires e.at <= e.later && cfg.codeTimeout >= 0 && cfg.pendingTimeout >= 0
    ensures var (t, out) := Step(cfg, s, e);
            && (out.Redirected? ==> forall id | id in t.codes :: e.later - t.codes[id].issued <= cfg.codeTimeout)
            && (out.Asked? ==> forall id | id in t.pending :: e.later - t.pending[id].issued <= cfg.pendingTimeout)
            && (out.Redirected? && e.Login? ==> forall id | id in t.sessions :: Fresh(cfg, t.sessions[id], e.started))
  {
  }

  // ----- Signing out -----

  lemma SessionStaysGone(cfg: Config, s: State, e: Event, id: string)
    requires id !in s.sessions || (e.Logout? && e.cookie == id && id != "")
    requires !(e.Login? && e.sessionId == id)
    ensures id !in Step(cfg, s, e).0.sessions
  {
  }

  /** A session once ended is not in the table again, so its cookie gets no code. */
  lemma {:induction false} EndedIsGone(cfg: Config, es: seq<Event>, k: nat, j: nat, n: nat, id: string, subject: string, at: Time)
    requires IsRun(es) && k < j < n <= |es| && SignsIn(cfg, es, k, id, subject, at) && id != ""
    requires es[j].Logout? && es[j].cookie == id
    ensures id !in Before(cfg, es, n).sessions
    ensures n < |es| && es[n].Authorize? && es[n].cookie == id ==> !Answer(cfg, es, n).Redirected?
    decreases n
  {
    BeforeNext(cfg, es, n - 1);
    if j < n - 1 { EndedIsGone(cfg, es, k, j, n - 1, id, subject, at); }
    SessionStaysGone(cfg, Before(cfg, es, n - 1), es[n - 1], id);
  }
}
