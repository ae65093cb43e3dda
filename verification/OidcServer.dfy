/** The provider as the code runs it: three tables changed in place, swept on the way in
    (internal/oidc/session.go, code.go, authorize.go, token.go). */
module OidcServer {

  import opened Oidc

  class Provider {
    const cfg: Config
    var sessions: map<string, Session>
    var codes: map<string, Code>
    var pending: map<string, Pending>

    constructor (cfg: Config)
      ensures this.cfg == cfg && Tables() == EMPTY
    {
      this.cfg, sessions, codes, pending := cfg, map[], map[], map[];
    }

    ghost function Tables(): State
      reads this
    {
      State(sessions, codes, pending)
    }

    method SweepSessions(now: Time)
      modifies this`sessions
      ensures sessions == SweptSessions(cfg, old(sessions), now)
    {
      var todo := sessions.Keys;
      while todo != {}
        invariant todo <= sessions.Keys
        invariant sessions == map id | id in old(sessions) && (id in todo || !Expired(cfg, old(sessions)[id], now)) :: old(sessions)[id]
        decreases todo
      {
        var id :| id in todo;
        todo := todo - {id};
        if Expired(cfg, sessions[id], now) {
          sessions := sessions - {id};
        }
      }
    }

    method StartSession(id: string, subject: string, now: Time) returns (s: Session)
      modifies this`sessions
      ensures sessions == Started(cfg, old(sessions), id, subject, now) && s == Session(subject, now, now)
    {
      s := Session(subject, now, now);
      sessions := sessions[id := s];
      SweepSessions(now);
    }

    method GetSession(cookie: string, now: Time) returns (s: Option<Session>)
      modifies this`sessions
      ensures s == Live(cfg, old(sessions), cookie, now) && sessions == Touched(cfg, old(sessions), cookie, now)
    {
      if cookie == "" || cookie !in sessions {
        return None;
      }
      if Expired(cfg, sessions[cookie], now) {
        sessions := sessions - {cookie};
        return None;
      }
      sessions := sessions[cookie := sessions[cookie].(lastUsed := now)];
      return Some(sessions[cookie]);
    }

    method IssueCode(id: string, request: Request, subject: string, authTime: Time, now: Time) returns (code: Code)
      modifies this`codes
      ensures code == Code(request, subject, authTime, now) && codes == Issued(cfg, old(codes), id, code, now)
    {
      code := Code(request, subject, authTime, now);
      var todo := codes.Keys;
      while todo != {}
        invariant todo <= codes.Keys
        invariant codes == map i | i in old(codes) && (i in todo || now - old(codes)[i].issued <= cfg.codeTimeout) :: old(codes)[i]
        decreases todo
      {
        var i :| i in todo;
        todo := todo - {i};
        if now - codes[i].issued > cfg.codeTimeout {
          codes := codes - {i};
        }
      }
      assert codes == SweptCodes(cfg, old(codes), now);
      codes := codes[id := code];
    }

    method TakeCode(id: string, now: Time) returns (code: Option<Code>)
      modifies this`codes
      ensures code == Taken(cfg, old(codes), id, now) && codes == old(codes) - {id}
    {
      if id !in codes {
        return None;
      }
      var found := codes[id];
      codes := codes - {id};
      return if now - found.issued > cfg.codeTimeout then None else Some(found);
    }

    method PutPending(id: string, request: Request, now: Time) returns (p: Pending)
      modifies this`pending
      ensures p == Pending(request, now) && pending == Put(cfg, old(pending), id, p, now)
    {
      p := Pending(request, now);
      var todo := pending.Keys;
      while todo != {}
        invariant todo <= pending.Keys
        invariant pending == map i | i in old(pending) && (i in todo || now - old(pending)[i].issued <= cfg.pendingTimeout) :: old(pending)[i]
        decreases todo
      {
        var i :| i in todo;
        todo := todo - {i};
        if now - pending[i].issued > cfg.pendingTimeout {
          pending := pending - {i};
        }
      }
      assert pending == map i | i in old(pending) && now - old(pending)[i].issued <= cfg.pendingTimeout :: old(pending)[i];
      pending := pending[id := p];
    }

    /** An authorization request: silent with a live session, refused or sent to the form without. */
    method HandleAuthorize(e: Event) returns (out: Output)
      requires e.Authorize?
      modifies this
      ensures (Tables(), out) == Step(cfg, old(Tables()), e)
    {
      if e.client !in cfg.clients || e.redirect !in cfg.clients[e.client].redirects {
        return Refused;
      }
      if e.responseType != "code" || e.challengeMethod != "S256" || e.challenge == "" {
        return Refused;
      }
      var s := GetSession(e.cookie, e.at);
      if s.Some? && !e.login {
        var code := IssueCode(e.newId, RequestOf(e), s.value.subject, s.value.signedIn, e.later);
        return Redirected(e.newId, code);
      }
      if e.none {
        return Refused;
      }
      var p := PutPending(e.newId, RequestOf(e), e.later);
      return Asked(e.newId, p);
    }

    /** The sign-in form: on success a session, an end to the pending request, and a code. */
    method HandleLogin(e: Event) returns (out: Output)
      requires e.Login?
      modifies this
      ensures (Tables(), out) == Step(cfg, old(Tables()), e)
    {
      if e.req !in pending || e.at - pending[e.req].issued > cfg.pendingTimeout || !e.granted {
        return Refused;
      }
      var request := pending[e.req].request;
      var s := StartSession(e.sessionId, e.subject, e.started);
      pending := pending - {e.req};
      var code := IssueCode(e.newId, request, e.subject, s.signedIn, e.later);
      return Redirected(e.newId, code);
    }

    /** The exchange: the client first, then the code is spent, then everything it was issued for. */
    method HandleToken(e: Event) returns (out: Output)
      requires e.Token?
      modifies this
      ensures (Tables(), out) == Step(cfg, old(Tables()), e)
    {
      if e.client !in cfg.clients {
        return Refused;
      }
      var secret := cfg.clients[e.client].secret;
      if secret == "" && e.secret != "" {
        return Refused;
      }
      if secret != "" && secret != e.secret {
        return Refused;
      }
      var code := TakeCode(e.code, e.at);
      if code.None? || e.client != code.value.request.client || e.redirect != code.value.request.redirect {
        return Refused;
      }
      if !Verifies(cfg, code.value.request.challenge, e.verifier) || !e.active {
        return Refused;
      }
      return Response(code.value.request.client, code.value.subject, code.value.request.nonce, code.value.authTime, e.later);
    }

    method HandleLogout(e: Event) returns (out: Output)
      requires e.Logout?
      modifies this
      ensures (Tables(), out) == Step(cfg, old(Tables()), e)
    {
      if e.cookie != "" {
        sessions := sessions - {e.cookie};
      }
      return Ended;
    }
  }
}
