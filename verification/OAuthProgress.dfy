/** What the authorization server must not refuse, and how long its tokens last. */
module OAuthProgress {
  import opened Common
  import opened ScopeGrants
  import opened RefreshStore
  import opened OAuthProtocol
  import opened OAuthSystem
  import opened OAuthInvariant
  import opened OAuthTheorems
  import opened OAuthTrace

  // ---- What is signed ----

  /** The step signs `p`, for the client that takes it, with the identifiers it draws. */
  ghost predicate SignsPair(cfg: Config, a: Action, p: TokenPair) {
    || (a.ExchangeCode? && a.draws.Some? &&
          AreIssued(cfg, p, a.draws.value.familyId, p.refresh.scopes, a.client, a.draws.value, a.issuedAt, a.accessAt))
    || (a.BeginRefresh? && AreIssued(cfg, p, p.refresh.familyId, p.refresh.scopes, a.client, a.draw, a.now, a.accessAt))
  }

  /** Every returned pair was signed by an earlier step, and belongs to a named family. */
  lemma PairIsIssued(env: Env, states: seq<World>, actions: seq<Action>, n: nat, p: TokenPair) returns (k: nat)
    requires Run(env, states, actions) && n < |states| && p in states[n].ledger.returned
    ensures k < n && (actions[k].ExchangeCode? || actions[k].BeginRefresh?) && SignsPair(env.cfg, actions[k], p) && p.refresh.familyId != ""
  {
    var t: Ticket;
    k, t := PairWasSigned(env, states, actions, n, p);
    assert Goes(env, states, actions, k);
    SignedFields(env, states[k], actions[k], t);
  }

  lemma SignedFields(env: Env, w: World, a: Action, t: Ticket)
    requires Enabled(env, w, a) && Signs(env, w, a, t)
    ensures (a.ExchangeCode? || a.BeginRefresh?) && SignsPair(env.cfg, a, t.next) && t.next.refresh.familyId != ""
  {
    if t.Refresh? { RefreshesExactly(env.cfg, t.presented, a.client, a.request, a.now, t.next.refresh.scopes); }
  }

  // ---- Access tokens ----

  /**
    A bearer that was handed out is accepted exactly until its lifetime from the moment it was issued is over, while
    its family is stored, not revoked and not expired.
   */
  lemma BearerIsAcceptedExactlyInItsLifetime(env: Env, states: seq<World>, actions: seq<Action>, n: nat, p: TokenPair, now: nat) returns (k: nat)
    requires Run(env, states, actions) && n < |states| && p in states[n].ledger.returned
    requires states[n].process.Up? && states[n].process.lock.Free?
    ensures k < n && (actions[k].ExchangeCode? || actions[k].BeginRefresh?) && SignsPair(env.cfg, actions[k], p)
    ensures Enabled(env, states[n], Bearer(p.access, now))
    ensures var families := states[n].process.memory.families;
            Accepts(env, states[n], Bearer(p.access, now), p.access) <==>
            && now < SaturatingAdd(actions[k].accessAt, env.cfg.accessTokenTtl)
            && p.access.familyId in families && !families[p.access.familyId].revoked && now < families[p.access.familyId].expiresAt
  {
    k := PairIsIssued(env, states, actions, n, p);
    RunInv(env, states, actions, n);
    ReturnedScopesAreValid(env.cfg, states[n].ledger, p);
    AcceptsExactly(env, states[n], p.access, now);
  }

  lemma AcceptsExactly(env: Env, w: World, claims: AccessClaims, now: nat)
    requires w.process.Up?
    ensures Accepts(env, w, Bearer(claims, now), claims) <==>
            && claims.version == 1 && claims.audience == env.cfg.resource && claims.familyId != "" && claims.scopes.IsValid()
            && now < claims.expiresAt && claims.familyId in w.process.memory.families
            && !w.process.memory.families[claims.familyId].revoked && now < w.process.memory.families[claims.familyId].expiresAt
  {
  }

  lemma ReturnedScopesAreValid(cfg: Config, l: Ledger, p: TokenPair)
    requires LedgerInv(cfg, l) && p in l.returned
    ensures p.access.scopes.IsValid() && p.access.familyId == p.refresh.familyId
  {
    assert PairOk(p) && Placed(l, p.refresh);
    assert FamilyOk(cfg, l, p.refresh.familyId) && LinkOk(l, p.refresh.familyId, l.places[p.refresh.tokenId].1);
  }

  /** So no accepted bearer is older than the access-token lifetime. */
  lemma AcceptedBearerIsYoung(env: Env, states: seq<World>, actions: seq<Action>, n: nat, claims: AccessClaims) returns (k: nat, t: Ticket)
    requires Run(env, states, actions) && n < |actions| && Accepts(env, states[n], actions[n], claims)
    ensures k < n && t.next.access == claims && Signs(env, states[k], actions[k], t) && (actions[k].ExchangeCode? || actions[k].BeginRefresh?)
    ensures actions[n].now < SaturatingAdd(actions[k].accessAt, env.cfg.accessTokenTtl)
  {
    k, t := BearerWasSigned(env, states, actions, n, claims);
    assert Goes(env, states, actions, k) && Goes(env, states, actions, n);
    SignedFields(env, states[k], actions[k], t);
    AcceptedBeforeExpiry(env, states[n], actions[n], claims);
  }

  lemma AcceptedBeforeExpiry(env: Env, w: World, a: Action, claims: AccessClaims)
    requires Accepts(env, w, a, claims)
    ensures a.Bearer? && a.now < claims.expiresAt
  {
  }

  // ---- Refreshing ----

  /** Taken in a row from `w`, the steps of the admitted request `t` persist it and return its tokens. */
  ghost predicate GoesThrough(env: Env, w: World, t: Ticket) {
    && Enabled(env, w, TakeLock(t))
    && var taken := Step(env, w, TakeLock(t));
    && LockAt(taken, {Opening})
    && var done := Persisted(env, taken);
    && done.process.Up? && done.process.lock.Free? && t.next in done.ledger.returned
    && t.next.refresh.familyId in done.process.memory.families
    && done.process.memory.families[t.next.refresh.familyId] == Family(TokenHash(t.next.refresh.tokenId), t.next.refresh.expiresAt, false)
  }

  lemma PlannedGoesThrough(env: Env, w: World, t: Ticket)
    requires w.process.Up? && w.process.lock.Free? && t in w.process.waiting
    requires var plan := PlanFor(w.process.memory, Asks(t));
             && plan.reply == Done && plan.write && t.next.refresh.familyId in plan.next.families
             && plan.next.families[t.next.refresh.familyId] == Family(TokenHash(t.next.refresh.tokenId), t.next.refresh.expiresAt, false)
    ensures GoesThrough(env, w, t)
  {
    var taken := DoTakeLock(w, t);
    assert Step(env, w, TakeLock(t)) == taken;
    PersistedState(env, taken);
    PersistedReturns(env, taken);
  }

  lemma PersistedReturns(env: Env, w: World)
    requires LockAt(w, {Opening}) && w.process.lock.plan.reply == Done
    ensures w.process.lock.ticket.next in Persisted(env, w).ledger.returned
  {
  }

  /** What the last token of a stored family carries. */
  lemma LastTokenFields(env: Env, states: seq<World>, actions: seq<Action>, n: nat, token: RefreshClaims)
    requires Run(env, states, actions) && n < |states| && exists p :: p in states[n].ledger.returned && p.refresh == token
    ensures token.version == 1 && token.audience == env.cfg.resource && token.familyId != "" && token.scopes.IsValid()
  {
    var p :| p in states[n].ledger.returned && p.refresh == token;
    var k := PairIsIssued(env, states, actions, n, p);
    RunInv(env, states, actions, n);
    ReturnedScopesAreValid(env.cfg, states[n].ledger, p);
    assert PairOk(p);
  }

  /**
    In every reachable state: the last token of a live family, presented by its own client for the configured resource and
    without a scope, is exchanged, for tokens with the same scopes, when every file operation succeeds.
   */
  lemma LastTokenIsRefreshed(env: Env, states: seq<World>, actions: seq<Action>, n: nat, f: string, token: RefreshClaims,
                             client: Client, request: TokenRequest, d: Draw, now: nat, accessAt: nat) returns (t: Ticket)
    requires Run(env, states, actions) && n < |states| && states[n].process.Up? && states[n].process.lock.Free?
    requires var families := states[n].process.memory.families; f in families && !families[f].revoked && now < families[f].expiresAt
    requires IsLast(states[n].ledger, token) && token.familyId == f && exists p :: p in states[n].ledger.returned && p.refresh == token
    requires client in states[n].ledger.clients && token.clientBinding == ClientBinding(client)
    requires request.refreshToken == Some(token) && request.resource == env.cfg.resource && request.scope.None?
    requires FreshDraw(states[n].ledger, d)
    ensures Enabled(env, states[n], BeginRefresh(client, request, d, now, accessAt))
    ensures GoesThrough(env, Step(env, states[n], BeginRefresh(client, request, d, now, accessAt)), t)
    ensures AreIssued(env.cfg, t.next, f, token.scopes, client, d, now, accessAt)
  {
    var w := states[n];
    RunInv(env, states, actions, n);
    LastTokenFields(env, states, actions, n, token);
    assert StoredOk(w.ledger, f, w.process.memory.families[f]);
    RefreshesExactly(env.cfg, token, client, request, now, token.scopes);
    t := RefreshTicket(env.cfg, token, client, token.scopes, d, now, accessAt);
    RotatesExactlyTheActiveToken(w.process.memory, f, TokenHash(token.tokenId), TokenHash(d.tokenId), t.next.refresh.expiresAt, now);
    AdmittedRefresh(env, w, client, request, d, now, accessAt, token);
    PlannedGoesThrough(env, Step(env, w, BeginRefresh(client, request, d, now, accessAt)), t);
  }

  lemma AdmittedRefresh(env: Env, w: World, client: Client, request: TokenRequest, d: Draw, now: nat, accessAt: nat, token: RefreshClaims)
    requires Enabled(env, w, BeginRefresh(client, request, d, now, accessAt)) && request.refreshToken == Some(token)
    requires CheckRefresh(env.cfg, token, client, request, now) == Success(token.scopes)
    ensures Step(env, w, BeginRefresh(client, request, d, now, accessAt)) ==
            Admit(w, RefreshTicket(env.cfg, token, client, token.scopes, d, now, accessAt), d)
  {
  }

  // ---- Exchanging a code ----

  /**
    In every reachable state: a held code, exchanged in time by the client it was approved for, with its redirect URI and
    resource and a valid verifier, yields tokens with the approved scopes when every file operation succeeds.
   */
  lemma CodeIsExchanged(env: Env, states: seq<World>, actions: seq<Action>, n: nat, client: Client, request: TokenRequest, d: Draw,
                        now: nat, issuedAt: nat, accessAt: nat) returns (t: Ticket)
    requires Run(env, states, actions) && n < |states| && states[n].process.Up? && states[n].process.lock.Free?
    requires client in states[n].ledger.clients && FreshDraw(states[n].ledger, d)
    requires IsCodeRequest(env.cfg, request) && request.code.value in states[n].process.codes
    requires MayExchange(env.cfg, states[n].process.codes[request.code.value], client, request, now)
    ensures Enabled(env, states[n], ExchangeCode(client, request, Some(d), now, issuedAt, accessAt))
    ensures GoesThrough(env, Step(env, states[n], ExchangeCode(client, request, Some(d), now, issuedAt, accessAt)), t)
    ensures AreIssued(env.cfg, t.next, d.familyId, states[n].process.codes[request.code.value].scopes, client, d, issuedAt, accessAt)
  {
    var w, code := states[n], request.code.value;
    var record := w.process.codes[code];
    RunInv(env, states, actions, n);
    ExchangesExactly(env.cfg, record, client, request, now);
    StoredFamilyWasDrawn(env, w, d.familyId);
    assert ApprovalOk(w.ledger, w.ledger.approved[code]);
    t := RedeemTicket(env.cfg, record, client, request, d, issuedAt, accessAt);
    CreatesExactlyFreeFamilies(w.process.memory, d.familyId, TokenHash(d.tokenId), t.next.refresh.expiresAt, issuedAt);
    AdmittedExchange(env, w, client, request, d, now, issuedAt, accessAt);
    PlannedGoesThrough(env, Step(env, w, ExchangeCode(client, request, Some(d), now, issuedAt, accessAt)), t);
  }

  lemma StoredFamilyWasDrawn(env: Env, w: World, f: string)
    requires Inv(env, w) && w.process.Up? && w.process.lock.Free?
    ensures f in w.process.memory.families ==> f in w.ledger.drawn
  {
    if f in w.process.memory.families {
      assert StoredOk(w.ledger, f, w.process.memory.families[f]) && FamilyOk(env.cfg, w.ledger, f);
    }
  }

  lemma AdmittedExchange(env: Env, w: World, client: Client, request: TokenRequest, d: Draw, now: nat, issuedAt: nat, accessAt: nat)
    requires Enabled(env, w, ExchangeCode(client, request, Some(d), now, issuedAt, accessAt)) && request.code.value in w.process.codes
    requires var record := w.process.codes[request.code.value]; CodeMatches(env.cfg, record, client, request, now) && record.scopes.IsValid()
    ensures Step(env, w, ExchangeCode(client, request, Some(d), now, issuedAt, accessAt)) ==
            Admit(Burn(w, request.code.value),
                  RedeemTicket(env.cfg, w.process.codes[request.code.value], client, request, d, issuedAt, accessAt), d)
  {
  }
}
