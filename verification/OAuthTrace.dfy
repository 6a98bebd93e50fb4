/** Every accepted bearer token is traced back, through the steps of the run, to an approval by the owner. */
module OAuthTrace {
  import opened Common
  import opened Text
  import opened ScopeGrants
  import opened RefreshStore
  import opened OAuthProtocol
  import opened OAuthSystem
  import opened OAuthInvariant
  import opened OAuthTheorems

  ghost predicate Run(env: Env, states: seq<World>, actions: seq<Action>) {
    env.codec.RoundTrips() && IsRun(env, states, actions)
  }

  // ---- One step: where a new entry comes from ----

  predicate Registers(a: Action, c: Client) {
    a.RegisterClient? && c == Client(1, a.redirectUris, a.authMethod, RegistrationScopes(a.scope), a.now)
  }

  predicate Requests(env: Env, w: World, a: Action, r: ApprovalRequest) {
    a.RequestApproval? && a.client in w.ledger.clients && BeginAuthorization(env.cfg, a.client, a.query, a.now) == Success(r)
  }

  predicate Approves(env: Env, w: World, a: Action, code: string, approval: Approval) {
    && a.Approve? && a.code == code && a.form.request in w.ledger.approvalRequests
    && a.form.request == approval.request
    && Decide(env.cfg, a.form, a.now, a.issuedAt) == Success(Approved(approval.record))
  }

  /**
    The step removes `code` for a request that matches its record, by the client it was approved for, and signs
    `next` with the identifiers it draws.
   */
  predicate Exchanges(env: Env, w: World, a: Action, code: string, verifier: string, next: TokenPair) {
    && a.ExchangeCode? && w.process.Up? && CodeRequestWellFormed(env.cfg, a.request)
    && a.request.code == Some(code) && a.request.codeVerifier == Some(verifier)
    && code in w.process.codes && CodeMatches(env.cfg, w.process.codes[code], a.client, a.request, a.now)
    && a.draws.Some? && next == SignedByExchange(env.cfg, a, w.process.codes[code].scopes)
  }

  function SignedByExchange(cfg: Config, a: Action, scopes: ScopeGrant): (r: TokenPair)
    requires a.ExchangeCode? && a.draws.Some?
  {
    var d := a.draws.value;
    TokenPair(AccessFor(cfg, scopes, d.familyId, d.accessId, a.accessAt),
              RefreshFor(cfg, scopes, a.client, d.familyId, d.tokenId, a.issuedAt))
  }

  /** The step admits a refresh of `presented` that asks for, and is allowed, the scopes of `next`, and signs `next`. */
  predicate Refreshes(env: Env, a: Action, presented: RefreshClaims, next: TokenPair) {
    && a.BeginRefresh? && a.request.refreshToken == Some(presented)
    && CheckRefresh(env.cfg, presented, a.client, a.request, a.now) == Success(next.refresh.scopes)
    && next == SignedByRefresh(env.cfg, a, presented.familyId, next.refresh.scopes)
  }

  function SignedByRefresh(cfg: Config, a: Action, familyId: string, scopes: ScopeGrant): (r: TokenPair)
    requires a.BeginRefresh?
  {
    TokenPair(AccessFor(cfg, scopes, familyId, a.draw.accessId, a.accessAt),
              RefreshFor(cfg, scopes, a.client, familyId, a.draw.tokenId, a.now))
  }

  /** The step signs the token pair of the ticket, after the checks the ticket stands for. */
  predicate Signs(env: Env, w: World, a: Action, t: Ticket) {
    match t
    case Redeem(next, code, verifier) => Exchanges(env, w, a, code, verifier, next)
    case Refresh(next, presented) => Refreshes(env, a, presented, next)
  }

  /** The step signs `token` for the family that the exchange of `code` begins. */
  predicate ExchangesFor(env: Env, w: World, a: Action, code: string, verifier: string, token: RefreshClaims) {
    && a.ExchangeCode? && a.draws.Some? && w.process.Up? && code in w.process.codes
    && var next := SignedByExchange(env.cfg, a, w.process.codes[code].scopes);
    && next.refresh == token && Exchanges(env, w, a, code, verifier, next)
  }

  /** The step signs `token` in exchange for `presented`. */
  predicate RefreshesInto(env: Env, a: Action, presented: RefreshClaims, token: RefreshClaims) {
    && a.BeginRefresh?
    && var next := SignedByRefresh(env.cfg, a, presented.familyId, token.scopes);
    && next.refresh == token && Refreshes(env, a, presented, next)
  }

  lemma NewClient(env: Env, w: World, a: Action, c: Client)
    requires Enabled(env, w, a) && c in Step(env, w, a).ledger.clients && c !in w.ledger.clients
    ensures Registers(a, c)
  {
  }

  lemma NewRequest(env: Env, w: World, a: Action, r: ApprovalRequest)
    requires Enabled(env, w, a) && r in Step(env, w, a).ledger.approvalRequests && r !in w.ledger.approvalRequests
    ensures Requests(env, w, a, r)
  {
  }

  lemma NewApproval(env: Env, w: World, a: Action, code: string)
    requires Enabled(env, w, a) && code in Step(env, w, a).ledger.approved && code !in w.ledger.approved
    ensures Approves(env, w, a, code, Step(env, w, a).ledger.approved[code])
  {
  }

  lemma NewTicket(env: Env, w: World, a: Action, t: Ticket)
    requires Enabled(env, w, a) && t in Tickets(Step(env, w, a)) && t !in Tickets(w)
    ensures Signs(env, w, a, t)
  {
  }

  /** The requests in flight, the one that holds the lock included. */
  ghost function Tickets(w: World): (r: set<Ticket>) {
    if w.process.Up? then w.process.waiting + if w.process.lock.Held? then {w.process.lock.ticket} else {} else {}
  }

  lemma NewPair(env: Env, w: World, a: Action, p: TokenPair)
    requires Enabled(env, w, a) && p in Step(env, w, a).ledger.returned && p !in w.ledger.returned
    ensures LockAt(w, {Renamed}) && w.process.lock.ticket.next == p && w.process.lock.ticket in Tickets(w)
  {
  }

  // ---- Every entry comes from an earlier step ----

  lemma {:induction false} ClientWasRegistered(env: Env, states: seq<World>, actions: seq<Action>, n: nat, c: Client) returns (k: nat)
    requires Run(env, states, actions) && n < |states| && c in states[n].ledger.clients
    ensures k < n && Registers(actions[k], c)
  {
    if c in states[n - 1].ledger.clients {
      k := ClientWasRegistered(env, states, actions, n - 1, c);
    } else {
      k := n - 1;
      assert Goes(env, states, actions, k);
      NewClient(env, states[k], actions[k], c);
    }
  }

  lemma {:induction false} RequestWasMade(env: Env, states: seq<World>, actions: seq<Action>, n: nat, r: ApprovalRequest) returns (k: nat)
    requires Run(env, states, actions) && n < |states| && r in states[n].ledger.approvalRequests
    ensures k < n && Requests(env, states[k], actions[k], r)
  {
    if r in states[n - 1].ledger.approvalRequests {
      k := RequestWasMade(env, states, actions, n - 1, r);
    } else {
      k := n - 1;
      assert Goes(env, states, actions, k);
      NewRequest(env, states[k], actions[k], r);
    }
  }

  lemma {:induction false} CodeWasApproved(env: Env, states: seq<World>, actions: seq<Action>, n: nat, code: string) returns (k: nat)
    requires Run(env, states, actions) && n < |states| && code in states[n].ledger.approved
    ensures k < n && Approves(env, states[k], actions[k], code, states[n].ledger.approved[code])
  {
    if code in states[n - 1].ledger.approved {
      RunGrows(env, states, actions, n - 1, n);
      k := CodeWasApproved(env, states, actions, n - 1, code);
    } else {
      k := n - 1;
      assert Goes(env, states, actions, k);
      NewApproval(env, states[k], actions[k], code);
    }
  }

  lemma {:induction false} TicketWasAdmitted(env: Env, states: seq<World>, actions: seq<Action>, n: nat, t: Ticket) returns (k: nat)
    requires Run(env, states, actions) && n < |states| && t in Tickets(states[n])
    ensures k < n && Signs(env, states[k], actions[k], t)
  {
    if t in Tickets(states[n - 1]) {
      k := TicketWasAdmitted(env, states, actions, n - 1, t);
    } else {
      k := n - 1;
      assert Goes(env, states, actions, k);
      NewTicket(env, states[k], actions[k], t);
    }
  }

  /** A pair returned to a client was signed by an earlier step, for a request that passed its checks. */
  lemma {:induction false} PairWasSigned(env: Env, states: seq<World>, actions: seq<Action>, n: nat, p: TokenPair)
    returns (k: nat, t: Ticket)
    requires Run(env, states, actions) && n < |states| && p in states[n].ledger.returned
    ensures k < n && t.next == p && Signs(env, states[k], actions[k], t)
  {
    if p in states[n - 1].ledger.returned {
      k, t := PairWasSigned(env, states, actions, n - 1, p);
    } else {
      assert Goes(env, states, actions, n - 1);
      NewPair(env, states[n - 1], actions[n - 1], p);
      t := states[n - 1].process.lock.ticket;
      k := TicketWasAdmitted(env, states, actions, n - 1, t);
    }
  }

  /** Recording a ticket adds the one link it carries. */
  lemma RecordAddsLink(cfg: Config, l: Ledger, t: Ticket, f: string, i: nat)
    requires TicketOk(cfg, l, t) && PresentsLast(l, t)
    requires f in Record(l, t).families && i < |Record(l, t).families[f].links|
    requires f !in l.families || |l.families[f].links| <= i
    ensures LinkOf(t, Record(l, t).families[f], i)
  {
  }

  ghost predicate LinkOf(t: Ticket, h: History, i: nat)
    requires i < |h.links|
  {
    && h.links[i] == t.next.refresh
    && match t
       case Redeem(_, code, verifier) => i == 0 && h.code == code && h.verifier == verifier
       case Refresh(_, presented) => i > 0 && h.links[i - 1] == presented
  }

  /** A link appears when the ticket that carries it is renamed into place. */
  lemma NewLink(env: Env, w: World, a: Action, f: string, i: nat)
    requires Inv(env, w) && Enabled(env, w, a)
    requires f in Step(env, w, a).ledger.families && i < |Step(env, w, a).ledger.families[f].links|
    requires f !in w.ledger.families || |w.ledger.families[f].links| <= i
    ensures LockAt(w, {Written}) && w.process.lock.ticket in Tickets(w)
    ensures LinkOf(w.process.lock.ticket, Step(env, w, a).ledger.families[f], i)
  {
    FamiliesChangeByRename(env, w, a);
    HolderOk(env, w);
    RecordAddsLink(env.cfg, w.ledger, w.process.lock.ticket, f, i);
  }

  lemma FamiliesChangeByRename(env: Env, w: World, a: Action)
    requires Enabled(env, w, a)
    ensures a != Rename ==> Step(env, w, a).ledger.families == w.ledger.families
    ensures a == Rename ==> Step(env, w, a) == DoRename(w)
  {
  }

  /** In a run: the link is new, or its family goes on from the state before. */
  lemma LinkIsNewOrContinued(env: Env, states: seq<World>, actions: seq<Action>, n: nat, f: string, i: nat)
    requires Run(env, states, actions) && 0 < n < |states|
    requires f in states[n].ledger.families && i < |states[n].ledger.families[f].links|
    ensures var l := states[n - 1].ledger; var h := states[n].ledger.families[f];
            if f in l.families && i < |l.families[f].links| then Continues(l.families[f], h)
            else
              && LockAt(states[n - 1], {Written})
              && states[n - 1].process.lock.ticket in Tickets(states[n - 1])
              && LinkOf(states[n - 1].process.lock.ticket, h, i)
  {
    RunInv(env, states, actions, n - 1);
    assert Goes(env, states, actions, n - 1);
    if f in states[n - 1].ledger.families && i < |states[n - 1].ledger.families[f].links| {
      StepGrows(env, states[n - 1], actions[n - 1]);
    } else {
      NewLink(env, states[n - 1], actions[n - 1], f, i);
    }
  }

  /** The first token of a family was signed by the exchange of the family's code. */
  lemma {:induction false} FamilyWasExchanged(env: Env, states: seq<World>, actions: seq<Action>, n: nat, f: string) returns (k: nat)
    requires Run(env, states, actions) && n < |states|
    requires f in states[n].ledger.families && states[n].ledger.families[f].links != []
    ensures var h := states[n].ledger.families[f]; k < n && ExchangesFor(env, states[k], actions[k], h.code, h.verifier, h.links[0])
  {
    LinkIsNewOrContinued(env, states, actions, n, f, 0);
    if f in states[n - 1].ledger.families && states[n - 1].ledger.families[f].links != [] {
      k := FamilyWasExchanged(env, states, actions, n - 1, f);
    } else {
      k := TicketWasAdmitted(env, states, actions, n - 1, states[n - 1].process.lock.ticket);
    }
  }

  /** Every later token of a family was signed by a refresh of its predecessor. */
  lemma {:induction false} LinkWasRefreshed(env: Env, states: seq<World>, actions: seq<Action>, n: nat, f: string, i: nat) returns (k: nat)
    requires Run(env, states, actions) && n < |states| && f in states[n].ledger.families && 0 < i < |states[n].ledger.families[f].links|
    ensures k < n
    ensures RefreshesInto(env, actions[k], states[n].ledger.families[f].links[i - 1], states[n].ledger.families[f].links[i])
  {
    LinkIsNewOrContinued(env, states, actions, n, f, i);
    if f in states[n - 1].ledger.families && i < |states[n - 1].ledger.families[f].links| {
      k := LinkWasRefreshed(env, states, actions, n - 1, f, i);
    } else {
      k := TicketWasAdmitted(env, states, actions, n - 1, states[n - 1].process.lock.ticket);
    }
  }

  /**
    The refresh that signed a token, field by field: the predecessor was presented by its client before it expired,
    without a scope parameter nothing was narrowed, with one exactly its words were granted.
   */
  lemma LinkWasAskedFor(env: Env, states: seq<World>, actions: seq<Action>, n: nat, f: string, i: nat) returns (k: nat)
    requires Run(env, states, actions) && n < |states| && f in states[n].ledger.families && 0 < i < |states[n].ledger.families[f].links|
    ensures k < n && actions[k].BeginRefresh?
    ensures var a, before, link := actions[k], states[n].ledger.families[f].links[i - 1], states[n].ledger.families[f].links[i];
            && a.request.refreshToken == Some(before)
            && MayRefresh(env.cfg, before, a.client, a.request, a.now, link.scopes.names)
            && (a.request.scope.None? ==> link.scopes == before.scopes)
            && link == RefreshClaims(1, before.familyId, a.draw.tokenId, before.clientBinding, link.scopes, env.cfg.resource, a.now,
                                     SaturatingAdd(a.now, env.cfg.refreshTokenTtl))
  {
    k := LinkWasRefreshed(env, states, actions, n, f, i);
    var a, before, link := actions[k], states[n].ledger.families[f].links[i - 1], states[n].ledger.families[f].links[i];
    RefreshesExactly(env.cfg, before, a.client, a.request, a.now, link.scopes);
  }

  // ---- Bearer tokens ----

  /** An accepted bearer token was returned together with a link of its family. */
  lemma AcceptedClaimsHaveALink(env: Env, w: World, a: Action, claims: AccessClaims) returns (i: nat)
    requires Inv(env, w) && Enabled(env, w, a) && Accepts(env, w, a, claims)
    ensures claims.familyId in w.ledger.families && i < |w.ledger.families[claims.familyId].links|
    ensures w.ledger.families[claims.familyId].links[i].scopes == claims.scopes
    ensures TokenPair(claims, w.ledger.families[claims.familyId].links[i]) in w.ledger.returned
  {
    var p :| p in w.ledger.returned && p.access == claims;
    assert Placed(w.ledger, p.refresh);
    i := w.ledger.places[p.refresh.tokenId].1;
  }

  /** Four steps of a run that end in the exchange of `code` for a family. */
  datatype Chain = Chain(registered: nat, requested: nat, approved: nat, exchanged: nat)

  ghost predicate ChainOk(env: Env, states: seq<World>, actions: seq<Action>, n: nat, c: Chain, h: History, approval: Approval)
    requires |states| == |actions| + 1 && n <= |actions| && h.links != []
  {
    && c.registered < c.requested < c.approved < c.exchanged < n
    && Registers(actions[c.registered], approval.request.client)
    && Requests(env, states[c.requested], actions[c.requested], approval.request)
    && Approves(env, states[c.approved], actions[c.approved], h.code, approval)
    && ExchangesFor(env, states[c.exchanged], actions[c.exchanged], h.code, h.verifier, h.links[0])
    && states[c.exchanged].process.codes[h.code] == approval.record
  }

  /** Every family of every reachable state stands at the end of such a chain. */
  lemma FamilyHasChain(env: Env, states: seq<World>, actions: seq<Action>, n: nat, f: string) returns (c: Chain)
    requires Run(env, states, actions) && n < |states|
    requires f in states[n].ledger.families && states[n].ledger.families[f].links != []
    requires states[n].ledger.families[f].code in states[n].ledger.approved
    ensures var h := states[n].ledger.families[f];
            ChainOk(env, states, actions, n, c, h, states[n].ledger.approved[h.code])
  {
    var h := states[n].ledger.families[f];
    var x := FamilyWasExchanged(env, states, actions, n, f);
    RunGrows(env, states, actions, x, n);
    ExchangedCodeIsApproved(env, states, actions, x, h.code);
    var p := CodeWasApproved(env, states, actions, x, h.code);
    var approval := states[n].ledger.approved[h.code];
    var q := RequestWasMade(env, states, actions, p, approval.request);
    var r := ClientWasRegistered(env, states, actions, q, approval.request.client);
    c := Chain(r, q, p, x);
  }

  lemma ExchangedCodeIsApproved(env: Env, states: seq<World>, actions: seq<Action>, x: nat, code: string)
    requires Run(env, states, actions) && x < |states| && states[x].process.Up? && code in states[x].process.codes
    ensures code in states[x].ledger.approved && states[x].ledger.approved[code].record == states[x].process.codes[code]
  {
    RunInv(env, states, actions, x);
  }

  /** What the four steps of a chain agree on. */
  lemma ChainSays(env: Env, states: seq<World>, actions: seq<Action>, n: nat, c: Chain, h: History, approval: Approval)
    requires |states| == |actions| + 1 && n <= |actions| && h.links != []
    requires ChainOk(env, states, actions, n, c, h, approval)
    ensures SameClientApprovedAndVerified(env, actions[c.registered], actions[c.requested], actions[c.approved], actions[c.exchanged])
    ensures ScopesOfChain(actions[c.registered], actions[c.requested], actions[c.approved], approval)
    ensures actions[c.approved].code == h.code && BeginsFamily(actions[c.exchanged], h.links[0].familyId)
    ensures InTimeAndPlace(env.cfg, actions[c.registered], actions[c.requested], actions[c.approved], actions[c.exchanged])
    ensures ScopesAskedAndGranted(actions[c.registered], actions[c.requested], actions[c.approved], approval)
  {
    var requested, approved, exchanged := actions[c.requested], actions[c.approved], actions[c.exchanged];
    BeginsExactly(env.cfg, requested.client, requested.query, requested.now, approval.request);
    DecidesExactly(env.cfg, approved.form, approved.now, approved.issuedAt, approval.record.scopes);
    ExchangesExactly(env.cfg, approval.record, exchanged.client, exchanged.request, exchanged.now);
    RegistersKnownScopes(actions[c.registered], approval.request.client);
  }

  lemma RegistersKnownScopes(a: Action, c: Client)
    requires Registers(a, c)
    ensures forall s :: s in c.scopes.names <==> IsRegistered(a.scope, s)
  {
    forall s ensures s in c.scopes.names <==> IsRegistered(a.scope, s) {
      if a.scope.Some? { RegistrationKeepsKnownWords(a.scope.value, s); }
    }
  }

  /** A client is registered for the known scopes it names, or for both when it names none. */
  predicate IsRegistered(scope: Option<string>, s: string) {
    && (s == "kb:tech" || s == "kb:private")
    && (scope.None? || s in Words(scope.value) || forall w | w in Words(scope.value) :: w != "kb:tech" && w != "kb:private")
  }

  /** One redirect URI, a registered one, and one resource throughout; the owner answered and the client exchanged in time. */
  ghost predicate InTimeAndPlace(cfg: Config, registered: Action, requested: Action, approved: Action, exchanged: Action) {
    && registered.RegisterClient? && requested.RequestApproval? && approved.Approve? && exchanged.ExchangeCode?
    && requested.query.redirectUri in registered.redirectUris && exchanged.request.redirectUri == Some(requested.query.redirectUri)
    && requested.query.resource == exchanged.request.resource == cfg.resource
    && approved.now < SaturatingAdd(requested.now, 300)
    && exchanged.now < SaturatingAdd(approved.issuedAt, cfg.authorizationCodeTtl)
    && requested.query.codeChallengeMethod == "S256" && exchanged.request.codeVerifier.Some?
    && IsVerifierFor(cfg, exchanged.request.codeVerifier.value, requested.query.codeChallenge)
  }

  /** What was registered, what was asked for within it, and what the owner granted of that. */
  ghost predicate ScopesAskedAndGranted(registered: Action, requested: Action, approved: Action, approval: Approval) {
    && registered.RegisterClient? && requested.RequestApproval? && approved.Approve?
    && (forall s :: s in requested.client.scopes.names <==> IsRegistered(registered.scope, s))
    && AsksFor(requested.query.scope, requested.client.scopes.names, approval.request.requestedScopes.names)
    && (requested.query.scope.None? ==> approval.request.requestedScopes == requested.client.scopes)
    && AsksFor(Some(approved.form.scope), {}, approval.record.scopes.names)
    && approval.record.scopes.names <= approval.request.requestedScopes.names
  }

  /** The exchange draws the identifier of the family. */
  predicate BeginsFamily(a: Action, familyId: string) {
    a.ExchangeCode? && a.draws.Some? && a.draws.value.familyId == familyId
  }

  /** The client that registered asked for and redeemed the approval; the owner gave it; the verifier matches. */
  predicate SameClientApprovedAndVerified(env: Env, registered: Action, requested: Action, approved: Action, exchanged: Action) {
    && registered.RegisterClient? && requested.RequestApproval? && approved.Approve? && exchanged.ExchangeCode?
    && Registers(registered, exchanged.client)
    && requested.client == exchanged.client && approved.form.request.client == exchanged.client
    && approved.form.decision == "approve" && approved.form.ownerSecret == env.cfg.ownerSecret
    && exchanged.request.code == Some(approved.code)
    && exchanged.request.codeVerifier.Some?
    && VerifyPkce(env.cfg, exchanged.request.codeVerifier.value, requested.query.codeChallenge)
  }

  /** The registered, requested and granted scopes are those of the approval. */
  predicate ScopesOfChain(registered: Action, requested: Action, approved: Action, approval: Approval) {
    && registered.RegisterClient? && requested.RequestApproval? && approved.Approve?
    && RegistrationScopes(registered.scope) == approval.request.client.scopes
    && RequestedScopes(requested.query.scope, requested.client.scopes) == Some(approval.request.requestedScopes)
    && Parse(approved.form.scope) == Some(approval.record.scopes)
  }

  /**
    Every accepted bearer token traces back to four steps of the run: a client registered, asked for an
    approval, the owner approved it with the owner secret, and that same client redeemed the approved code with
    a verifier matching the challenge it had asked with. That exchange drew the identifier of the bearer's own
    family, whose history begins with the token signed there, and what was approved allows the bearer's scopes. If
    the bearer is authenticated as Private, the registration, the request and the owner's approval were all Private.
   */
  lemma BearerTracesToOwnerApproval(env: Env, states: seq<World>, actions: seq<Action>, n: nat, claims: AccessClaims)
    returns (c: Chain, approval: Approval)
    requires Run(env, states, actions) && n < |actions| && Accepts(env, states[n], actions[n], claims)
    ensures c.registered < c.requested < c.approved < c.exchanged < n
    ensures SameClientApprovedAndVerified(env, actions[c.registered], actions[c.requested], actions[c.approved], actions[c.exchanged])
    ensures ScopesOfChain(actions[c.registered], actions[c.requested], actions[c.approved], approval)
    ensures InTimeAndPlace(env.cfg, actions[c.registered], actions[c.requested], actions[c.approved], actions[c.exchanged])
    ensures ScopesAskedAndGranted(actions[c.registered], actions[c.requested], actions[c.approved], approval)
    ensures BeginsFamily(actions[c.exchanged], claims.familyId)
    ensures claims.familyId in states[n].ledger.families && states[n].ledger.families[claims.familyId].links != []
    ensures states[n].ledger.families[claims.familyId].code == actions[c.approved].code
    ensures ChainOk(env, states, actions, n, c, states[n].ledger.families[claims.familyId], approval)
    ensures approval.record.scopes.Allows(claims.scopes)
    ensures claims.scopes.AccessScope() == Private ==>
              && approval.request.client.scopes.AccessScope() == Private
              && approval.request.requestedScopes.AccessScope() == Private
              && approval.record.scopes.AccessScope() == Private
  {
    var l := states[n].ledger;
    var i := AcceptedHasLink(env, states, actions, n, claims);
    var h := l.families[claims.familyId];
    c := FamilyHasChain(env, states, actions, n, claims.familyId);
    approval := l.approved[h.code];
    ChainSays(env, states, actions, n, c, h, approval);
  }

  /**
    The bearer token itself was signed by a step of the run that had passed its checks: the exchange of its
    family's code, or a refresh of a token of its family.
   */
  lemma BearerWasSigned(env: Env, states: seq<World>, actions: seq<Action>, n: nat, claims: AccessClaims) returns (k: nat, t: Ticket)
    requires Run(env, states, actions) && n < |actions| && Accepts(env, states[n], actions[n], claims)
    ensures k < n && t.next.access == claims && Signs(env, states[k], actions[k], t)
    ensures t.Redeem? ==> BeginsFamily(actions[k], claims.familyId)
    ensures t.Refresh? ==> t.presented.familyId == claims.familyId
  {
    assert Goes(env, states, actions, n);
    var p :| p in states[n].ledger.returned && p.access == claims;
    k, t := PairWasSigned(env, states, actions, n, p);
  }

  lemma AcceptedHasLink(env: Env, states: seq<World>, actions: seq<Action>, n: nat, claims: AccessClaims) returns (i: nat)
    requires Run(env, states, actions) && n < |actions| && Accepts(env, states[n], actions[n], claims)
    ensures var l := states[n].ledger; var f := claims.familyId;
            && f in l.families && i < |l.families[f].links| && l.families[f].links[i].scopes == claims.scopes
            && TokenPair(claims, l.families[f].links[i]) in l.returned
            && FamilyOk(env.cfg, l, f) && l.families[f].links[0].familyId == f
            && l.families[f].code in l.approved
            && l.approved[l.families[f].code].record.scopes.Allows(claims.scopes)
            && (claims.scopes.AccessScope() == Private ==> PrivateApproval(l.approved[l.families[f].code]))
  {
    RunInv(env, states, actions, n);
    assert Goes(env, states, actions, n);
    i := AcceptedClaimsHaveALink(env, states[n], actions[n], claims);
    PrivateAllTheWay(env.cfg, states[n].ledger, claims.familyId, i);
    ApprovalAllowsLink(env.cfg, states[n].ledger, claims.familyId, i);
  }

  /** The approval allows every link of its family. */
  lemma ApprovalAllowsLink(cfg: Config, l: Ledger, f: string, i: nat)
    requires LedgerInv(cfg, l) && f in l.families && i < |l.families[f].links|
    ensures FamilyOk(cfg, l, f) && l.families[f].links[0].familyId == f
    ensures l.approved[l.families[f].code].record.scopes.Allows(l.families[f].links[i].scopes)
  {
    assert FamilyOk(cfg, l, f) && LinkOk(l, f, 0);
    ChainNarrows(cfg, l, f, 0, i);
  }

  ghost predicate PrivateApproval(a: Approval) {
    && a.record.scopes.AccessScope() == Private
    && a.request.requestedScopes.AccessScope() == Private
    && a.request.client.scopes.AccessScope() == Private
  }

  /** A Private link needs the approval, the request and the registration to be Private. */
  lemma PrivateAllTheWay(cfg: Config, l: Ledger, f: string, i: nat)
    requires LedgerInv(cfg, l) && f in l.families && i < |l.families[f].links|
    ensures l.families[f].code in l.approved && FamilyOk(cfg, l, f)
    ensures l.families[f].links[i].scopes.AccessScope() == Private ==> PrivateApproval(l.approved[l.families[f].code])
  {
    assert FamilyOk(cfg, l, f);
    var h := l.families[f];
    ChainNarrows(cfg, l, f, 0, i);
    if h.links[i].scopes.AccessScope() == Private {
      PrivateNeedsPrivate(h.links[0].scopes, h.links[i].scopes);
      assert ApprovalOk(l, l.approved[h.code]);
      PrivateNeedsPrivate(l.approved[h.code].request.client.scopes, l.approved[h.code].record.scopes);
    }
  }

  /** The step refreshes link `m - 1` of `h` into link `m`, asking to stay Private. */
  ghost predicate PrivateRefresh(env: Env, a: Action, h: History, m: nat)
    requires 0 < m < |h.links|
  {
    && RefreshesInto(env, a, h.links[m - 1], h.links[m])
    && h.links[m].scopes.AccessScope() == Private
    && RequestedScopes(a.request.scope, h.links[m - 1].scopes) == Some(h.links[m].scopes)
  }

  ghost predicate WasPrivatelyRefreshed(env: Env, actions: seq<Action>, n: nat, h: History, m: nat)
    requires n <= |actions| && 0 < m < |h.links|
  {
    exists k | 0 <= k < n :: PrivateRefresh(env, actions[k], h, m)
  }

  lemma LinkWasPrivatelyRefreshed(env: Env, states: seq<World>, actions: seq<Action>, n: nat, f: string, m: nat, i: nat)
    requires Run(env, states, actions) && n < |states|
    requires f in states[n].ledger.families && FamilyOk(env.cfg, states[n].ledger, f) && 0 < m <= i < |states[n].ledger.families[f].links|
    requires states[n].ledger.families[f].links[i].scopes.AccessScope() == Private
    ensures WasPrivatelyRefreshed(env, actions, n, states[n].ledger.families[f], m)
  {
    var h := states[n].ledger.families[f];
    var k := LinkWasRefreshed(env, states, actions, n, f, m);
    ChainNarrows(env.cfg, states[n].ledger, f, m, i);
    PrivateNeedsPrivate(h.links[m].scopes, h.links[i].scopes);
    assert PrivateRefresh(env, actions[k], h, m);
  }

  /**
    A bearer authenticated as Private was returned with a refresh token of its family that, like every one before
    it but the first, was signed by a refresh that asked to stay Private.
   */
  lemma PrivateBearerWasNeverNarrowed(env: Env, states: seq<World>, actions: seq<Action>, n: nat, claims: AccessClaims) returns (i: nat)
    requires Run(env, states, actions) && n < |actions| && Accepts(env, states[n], actions[n], claims)
    requires claims.scopes.AccessScope() == Private
    ensures claims.familyId in states[n].ledger.families && i < |states[n].ledger.families[claims.familyId].links|
    ensures TokenPair(claims, states[n].ledger.families[claims.familyId].links[i]) in states[n].ledger.returned
    ensures forall m | 0 < m <= i :: WasPrivatelyRefreshed(env, actions, n, states[n].ledger.families[claims.familyId], m)
  {
    i := AcceptedHasLink(env, states, actions, n, claims);
    forall m | 0 < m <= i ensures WasPrivatelyRefreshed(env, actions, n, states[n].ledger.families[claims.familyId], m) {
      LinkWasPrivatelyRefreshed(env, states, actions, n, claims.familyId, m, i);
    }
  }
}
