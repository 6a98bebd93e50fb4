/**
  The checks and claims of src/oauth.rs, and the server object that runs them.

  A signed value (client id, approval request, token) is represented by the payload that was signed:
  module MacLabels shows why a tag verifies for nothing else. A random value is a string supplied by
  the caller, and every clock reading is an argument.
 */
module OAuthProtocol {
  import opened Common
  import opened Text
  import opened ScopeGrants
  import opened RefreshStore

  const TOKEN_CLAIMS_VERSION: nat := 1
  const APPROVAL_REQUEST_TTL_SECONDS: nat := 300
  const MAX_FORM_VALUE_LENGTH: nat := 8_192

  datatype ClientAuthenticationMethod = NoSecret | ClientSecretPost | ClientSecretBasic

  /** A dynamically registered client: the payload its client id carries. */
  datatype Client = Client(version: nat, redirectUris: set<string>, authMethod: ClientAuthenticationMethod,
                           scopes: ScopeGrant, issuedAt: nat)

  /** HMAC of a client id. */
  datatype ClientBinding = ClientBinding(client: Client)

  datatype ApprovalRequest = ApprovalRequest(client: Client, redirectUri: string, requestedScopes: ScopeGrant,
                                             resource: string, codeChallenge: string, expiresAt: nat)

  datatype AuthorizationCode = AuthorizationCode(client: Client, redirectUri: string, scopes: ScopeGrant,
                                                 resource: string, codeChallenge: string, expiresAt: nat)

  datatype AccessClaims = AccessClaims(version: nat, tokenId: string, familyId: string, scopes: ScopeGrant,
                                       audience: string, issuedAt: nat, expiresAt: nat)

  datatype RefreshClaims = RefreshClaims(version: nat, familyId: string, tokenId: string, clientBinding: ClientBinding,
                                         scopes: ScopeGrant, audience: string, issuedAt: nat, expiresAt: nat)

  datatype TokenPair = TokenPair(access: AccessClaims, refresh: RefreshClaims)

  datatype Config = Config(resource: string, ownerSecret: string, accessTokenTtl: nat, authorizationCodeTtl: nat,
                           refreshTokenTtl: nat, s256: string -> string)

  datatype AuthorizationQuery = AuthorizationQuery(responseType: string, redirectUri: string, scope: Option<string>,
                                                   state: Option<string>, resource: string, codeChallenge: string,
                                                   codeChallengeMethod: string)

  datatype ApprovalForm = ApprovalForm(request: ApprovalRequest, ownerSecret: string, decision: string, scope: string)

  datatype TokenRequest = TokenRequest(code: Option<string>, redirectUri: Option<string>, codeVerifier: Option<string>,
                                       refreshToken: Option<RefreshClaims>, scope: Option<string>, resource: string)

  /** Random values drawn while issuing tokens. */
  datatype Draw = Draw(familyId: string, accessId: string, tokenId: string)

  // ---- Registration and approval ----

  function RegistrationScopes(scope: Option<string>): (r: ScopeGrant) {
    match scope
    case Some(text) => ParseLenient(text)
    case None => ScopeGrant({SCOPE_TECH, SCOPE_PRIVATE})
  }

  predicate IsAsciiAlphanumeric(c: char) {
    'a' <= c <= 'z' || 'A' <= c <= 'Z' || '0' <= c <= '9'
  }

  predicate ValidCodeChallenge(value: string) {
    |value| == 43 && forall i | 0 <= i < |value| :: IsAsciiAlphanumeric(value[i]) || value[i] in "-_"
  }

  predicate ValidCodeVerifier(value: string) {
    43 <= |value| <= 128 && forall i | 0 <= i < |value| :: IsAsciiAlphanumeric(value[i]) || value[i] in "-_.~"
  }

  predicate VerifyPkce(cfg: Config, verifier: string, challenge: string) {
    ValidCodeVerifier(verifier) && cfg.s256(verifier) == challenge
  }

  predicate ValidAuthorizationQuery(cfg: Config, q: AuthorizationQuery) {
    && q.responseType == "code"
    && ByteLen(q.redirectUri) <= MAX_FORM_VALUE_LENGTH
    && q.resource == cfg.resource
    && q.codeChallengeMethod == "S256"
    && ValidCodeChallenge(q.codeChallenge)
    && (q.state.Some? ==> ByteLen(q.state.value) <= 2_048)
  }

  /** A scope parameter when present, otherwise what the caller already holds. */
  function RequestedScopes(scope: Option<string>, held: ScopeGrant): (r: Option<ScopeGrant>) {
    match scope
    case None => Some(held)
    case Some(text) => Parse(text)
  }

  function BeginAuthorization(cfg: Config, client: Client, q: AuthorizationQuery, now: nat): (r: Result<ApprovalRequest, OAuthError>) {
    if !ValidAuthorizationQuery(cfg, q) || q.redirectUri !in client.redirectUris then Failure(InvalidAuthorizationRequest)
    else
      match RequestedScopes(q.scope, client.scopes)
      case None => Failure(InvalidScope)
      case Some(requested) =>
        if !client.scopes.Allows(requested) then Failure(InvalidScope)
        else Success(ApprovalRequest(client, q.redirectUri, requested, q.resource, q.codeChallenge,
                                     SaturatingAdd(now, APPROVAL_REQUEST_TTL_SECONDS)))
  }

  datatype Decision = Denied | Approved(record: AuthorizationCode)

  /** `complete_authorization` up to the point where a code is drawn; `issuedAt` is the later clock reading. */
  function Decide(cfg: Config, form: ApprovalForm, now: nat, issuedAt: nat): (r: Result<Decision, OAuthError>) {
    var r := form.request;
    if ByteLen(form.ownerSecret) > MAX_FORM_VALUE_LENGTH || ByteLen(form.scope) > MAX_SCOPE_BYTES then Failure(InvalidRequest)
    else if r.expiresAt <= now then Failure(InvalidRequest)
    else if r.redirectUri !in r.client.redirectUris || !r.client.scopes.Allows(r.requestedScopes) || r.resource != cfg.resource then
      Failure(InvalidAuthorizationRequest)
    else if form.decision == "deny" then Success(Denied)
    else if form.decision != "approve" || form.ownerSecret != cfg.ownerSecret then Failure(InvalidOwner)
    else
      match Parse(form.scope)
      case None => Failure(InvalidScope)
      case Some(granted) =>
        if !granted.IsSubsetOf(r.requestedScopes) || !r.client.scopes.Allows(granted) then Failure(InvalidScope)
        else Success(Approved(AuthorizationCode(r.client, r.redirectUri, granted, r.resource, r.codeChallenge,
                                                SaturatingAdd(issuedAt, cfg.authorizationCodeTtl))))
  }

  function LiveCodes(codes: map<string, AuthorizationCode>, now: nat): (r: map<string, AuthorizationCode>) {
    map c | c in codes && codes[c].expiresAt > now :: codes[c]
  }

  // ---- Issuing ----

  function AccessFor(cfg: Config, scopes: ScopeGrant, familyId: string, tokenId: string, now: nat): (r: AccessClaims) {
    AccessClaims(TOKEN_CLAIMS_VERSION, tokenId, familyId, scopes, cfg.resource, now, SaturatingAdd(now, cfg.accessTokenTtl))
  }

  function RefreshFor(cfg: Config, scopes: ScopeGrant, client: Client, familyId: string, tokenId: string, now: nat): (r: RefreshClaims) {
    RefreshClaims(TOKEN_CLAIMS_VERSION, familyId, tokenId, ClientBinding(client), scopes, cfg.resource, now,
                  SaturatingAdd(now, cfg.refreshTokenTtl))
  }

  // ---- Code exchange ----

  /** Everything `exchange_authorization_code` checks before it touches the code table. */
  predicate CodeRequestWellFormed(cfg: Config, request: TokenRequest) {
    && request.code.Some? && request.redirectUri.Some? && request.codeVerifier.Some?
    && ByteLen(request.code.value) <= MAX_FORM_VALUE_LENGTH
    && ByteLen(request.codeVerifier.value) <= 128
    && ByteLen(request.redirectUri.value) <= MAX_FORM_VALUE_LENGTH
    && request.resource == cfg.resource
  }

  /** The checks made after the code has been removed. */
  predicate CodeMatches(cfg: Config, record: AuthorizationCode, client: Client, request: TokenRequest, now: nat)
    requires CodeRequestWellFormed(cfg, request)
  {
    && record.expiresAt > now
    && record.client == client
    && record.redirectUri == request.redirectUri.value
    && record.resource == request.resource
    && VerifyPkce(cfg, request.codeVerifier.value, record.codeChallenge)
  }

  // ---- Refresh and bearer ----

  /** Everything `exchange_refresh_token` checks before the store lock; the scopes of the new tokens on success. */
  function CheckRefresh(cfg: Config, claims: RefreshClaims, client: Client, request: TokenRequest, now: nat): (r: Result<ScopeGrant, OAuthError>) {
    if request.resource != cfg.resource then Failure(InvalidGrant)
    else if
      || claims.version != TOKEN_CLAIMS_VERSION || !claims.scopes.IsValid() || claims.audience != cfg.resource
      || claims.expiresAt <= now || claims.clientBinding != ClientBinding(client)
    then Failure(InvalidGrant)
    else
      match RequestedScopes(request.scope, claims.scopes)
      case None => Failure(InvalidScope)
      case Some(scopes) =>
        if !claims.scopes.Allows(scopes) then Failure(InvalidScope)
        else if claims.familyId == "" then Failure(InvalidTarget)
        else Success(scopes)
  }

  /** The claim checks of `authenticate_bearer`. */
  predicate BearerClaimsValid(cfg: Config, claims: AccessClaims, now: nat) {
    && claims.version == TOKEN_CLAIMS_VERSION
    && claims.scopes.IsValid()
    && claims.familyId != ""
    && claims.audience == cfg.resource
    && claims.expiresAt > now
  }

  // ---- The rules, field by field ----

  predicate AreKnown(names: set<string>) {
    names != {} && forall s | s in names :: s == "kb:tech" || s == "kb:private"
  }

  /** Holding `kb:private` is holding `kb:tech`. */
  predicate AreHeld(names: set<string>, held: set<string>) {
    forall s | s in names :: s in held || (s == "kb:tech" && "kb:private" in held)
  }

  /** Without a scope parameter everything held is asked for; with one, exactly its words, which must be known scopes. */
  ghost predicate AsksFor(scope: Option<string>, held: set<string>, names: set<string>) {
    match scope
    case None => names == held
    case Some(text) =>
      && ByteLen(text) <= 256 && Words(text) != []
      && (forall w | w in Words(text) :: w == "kb:tech" || w == "kb:private")
      && (forall s :: s in names <==> s in Words(text))
  }

  ghost predicate IsVerifierFor(cfg: Config, verifier: string, challenge: string) {
    && 43 <= |verifier| <= 128 && cfg.s256(verifier) == challenge
    && forall c | c in verifier :: 'a' <= c <= 'z' || 'A' <= c <= 'Z' || '0' <= c <= '9' || c == '-' || c == '_' || c == '.' || c == '~'
  }

  lemma VerifiersExactly(cfg: Config, verifier: string, challenge: string)
    ensures VerifyPkce(cfg, verifier, challenge) <==> IsVerifierFor(cfg, verifier, challenge)
  {
    assert forall c :: c in "-_.~" <==> c == '-' || c == '_' || c == '.' || c == '~';
    assert forall i | 0 <= i < |verifier| :: verifier[i] in verifier;
  }

  lemma AsksExactly(scope: Option<string>, held: ScopeGrant, g: ScopeGrant)
    ensures RequestedScopes(scope, held) == Some(g) <==> AsksFor(scope, held.names, g.names)
  {
    if scope.Some? { ParsesExactlyKnownWords(scope.value, g); }
  }

  /** A query is answered with a request when its fields are right, and the request is for what it asks. */
  ghost predicate MayRequest(cfg: Config, client: Client, q: AuthorizationQuery, names: set<string>) {
    && q.responseType == "code" && q.codeChallengeMethod == "S256" && q.resource == cfg.resource
    && q.redirectUri in client.redirectUris && ByteLen(q.redirectUri) <= 8_192
    && |q.codeChallenge| == 43
    && (forall c | c in q.codeChallenge :: 'a' <= c <= 'z' || 'A' <= c <= 'Z' || '0' <= c <= '9' || c == '-' || c == '_')
    && (q.state.Some? ==> ByteLen(q.state.value) <= 2_048)
    && AsksFor(q.scope, client.scopes.names, names) && AreHeld(names, client.scopes.names)
  }

  lemma ChallengesExactly(value: string)
    ensures ValidCodeChallenge(value) <==>
            && |value| == 43
            && forall c | c in value :: 'a' <= c <= 'z' || 'A' <= c <= 'Z' || '0' <= c <= '9' || c == '-' || c == '_'
  {
    assert forall c :: c in "-_" <==> c == '-' || c == '_';
    assert forall i | 0 <= i < |value| :: value[i] in value;
  }

  /** An authorization begins exactly when the query may be made; without a scope parameter it is for all the client registered. */
  lemma BeginsExactly(cfg: Config, client: Client, q: AuthorizationQuery, now: nat, r: ApprovalRequest)
    ensures BeginAuthorization(cfg, client, q, now) == Success(r) <==>
            && MayRequest(cfg, client, q, r.requestedScopes.names)
            && r.client == client && r.redirectUri == q.redirectUri && r.resource == q.resource && r.codeChallenge == q.codeChallenge
            && r.expiresAt == SaturatingAdd(now, 300)
    ensures BeginAuthorization(cfg, client, q, now) == Success(r) && q.scope.None? ==> r.requestedScopes == client.scopes
  {
    ChallengesExactly(q.codeChallenge);
    AsksExactly(q.scope, client.scopes, r.requestedScopes);
  }

  /** The form is within limits and answers a request that is unexpired and still covered by its client's registration. */
  ghost predicate MayDecide(cfg: Config, form: ApprovalForm, now: nat) {
    && ByteLen(form.ownerSecret) <= 8_192 && ByteLen(form.scope) <= 256 && now < form.request.expiresAt
    && form.request.redirectUri in form.request.client.redirectUris && form.request.resource == cfg.resource
    && AreHeld(form.request.requestedScopes.names, form.request.client.scopes.names)
  }

  ghost predicate Grants(form: ApprovalForm, names: set<string>) {
    && AsksFor(Some(form.scope), {}, names) && names <= form.request.requestedScopes.names
    && AreHeld(names, form.request.client.scopes.names)
  }

  lemma DecidesExactly(cfg: Config, form: ApprovalForm, now: nat, issuedAt: nat, g: ScopeGrant)
    ensures var r := form.request; var d := Decide(cfg, form, now, issuedAt);
            && (d == Success(Denied) <==> MayDecide(cfg, form, now) && form.decision == "deny")
            && (d == Success(Approved(AuthorizationCode(r.client, r.redirectUri, g, r.resource, r.codeChallenge,
                                                        SaturatingAdd(issuedAt, cfg.authorizationCodeTtl)))) <==>
                  MayDecide(cfg, form, now) && form.decision == "approve" && form.ownerSecret == cfg.ownerSecret && Grants(form, g.names))
            && (d.Success? && d.value.Approved? ==>
                  d.value.record == AuthorizationCode(r.client, r.redirectUri, d.value.record.scopes, r.resource, r.codeChallenge,
                                                      SaturatingAdd(issuedAt, cfg.authorizationCodeTtl)))
  {
    ParsesExactlyKnownWords(form.scope, g);
  }

  /** Why a form is refused, in the order of the checks. */
  lemma RefusesExactly(cfg: Config, form: ApprovalForm, now: nat, issuedAt: nat)
    ensures var d := Decide(cfg, form, now, issuedAt);
            var inTime := ByteLen(form.ownerSecret) <= 8_192 && ByteLen(form.scope) <= 256 && now < form.request.expiresAt;
            && (d == Failure(InvalidRequest) <==> !inTime)
            && (d == Failure(InvalidAuthorizationRequest) <==> inTime && !MayDecide(cfg, form, now))
            && (d == Failure(InvalidOwner) <==>
                  MayDecide(cfg, form, now) && form.decision != "deny" && (form.decision != "approve" || form.ownerSecret != cfg.ownerSecret))
            && (d == Failure(InvalidScope) <==>
                  && MayDecide(cfg, form, now) && form.decision == "approve" && form.ownerSecret == cfg.ownerSecret
                  && forall g: ScopeGrant :: !Grants(form, g.names))
  {
    if Parse(form.scope).Some? {
      var g := Parse(form.scope).value;
      ParsesExactlyKnownWords(form.scope, g);
    }
    forall g: ScopeGrant | Grants(form, g.names) ensures Parse(form.scope) == Some(g) {
      ParsesExactlyKnownWords(form.scope, g);
    }
  }

  ghost predicate IsCodeRequest(cfg: Config, request: TokenRequest) {
    && request.code.Some? && request.redirectUri.Some? && request.codeVerifier.Some? && request.resource == cfg.resource
    && ByteLen(request.code.value) <= 8_192 && ByteLen(request.redirectUri.value) <= 8_192 && ByteLen(request.codeVerifier.value) <= 128
  }

  /** The code is unexpired, was approved for this client, redirect URI and resource, and the verifier is the one its challenge was made from. */
  ghost predicate MayExchange(cfg: Config, record: AuthorizationCode, client: Client, request: TokenRequest, now: nat)
    requires request.codeVerifier.Some?
  {
    && now < record.expiresAt && record.client == client
    && request.redirectUri == Some(record.redirectUri) && request.resource == record.resource
    && IsVerifierFor(cfg, request.codeVerifier.value, record.codeChallenge)
  }

  lemma ExchangesExactly(cfg: Config, record: AuthorizationCode, client: Client, request: TokenRequest, now: nat)
    ensures CodeRequestWellFormed(cfg, request) <==> IsCodeRequest(cfg, request)
    ensures IsCodeRequest(cfg, request) ==> (CodeMatches(cfg, record, client, request, now) <==> MayExchange(cfg, record, client, request, now))
  {
    if IsCodeRequest(cfg, request) { VerifiersExactly(cfg, request.codeVerifier.value, record.codeChallenge); }
  }

  /** The presented token is a valid, unexpired one of this client, and what is asked for is known and held. */
  ghost predicate MayRefresh(cfg: Config, claims: RefreshClaims, client: Client, request: TokenRequest, now: nat, names: set<string>) {
    && request.resource == cfg.resource && claims.audience == cfg.resource
    && claims.version == 1 && AreKnown(claims.scopes.names) && claims.familyId != ""
    && now < claims.expiresAt && claims.clientBinding == ClientBinding(client)
    && AsksFor(request.scope, claims.scopes.names, names) && AreHeld(names, claims.scopes.names)
  }

  lemma RefreshesExactly(cfg: Config, claims: RefreshClaims, client: Client, request: TokenRequest, now: nat, g: ScopeGrant)
    ensures CheckRefresh(cfg, claims, client, request, now) == Success(g) <==> MayRefresh(cfg, claims, client, request, now, g.names)
  {
    AsksExactly(request.scope, claims.scopes, g);
  }

  /** Claims of the tokens issued at `now` or `accessAt`: what lasts how long, for whom. */
  ghost predicate AreIssued(cfg: Config, p: TokenPair, familyId: string, scopes: ScopeGrant, client: Client, d: Draw, now: nat, accessAt: nat) {
    && p.access == AccessClaims(1, d.accessId, familyId, scopes, cfg.resource, accessAt, SaturatingAdd(accessAt, cfg.accessTokenTtl))
    && p.refresh == RefreshClaims(1, familyId, d.tokenId, ClientBinding(client), scopes, cfg.resource, now, SaturatingAdd(now, cfg.refreshTokenTtl))
  }

  // ---- The server object ----

  /** `OAuthState`: the in-memory code table and the durable family store. */
  class OAuthServer {
    const cfg: Config
    const store: RefreshTokenStore
    var codes: map<string, AuthorizationCode>

    ghost predicate Valid()
      reads this, store
    {
      store.Valid()
    }

    constructor (cfg: Config, store: RefreshTokenStore)
      requires store.Valid()
      ensures Valid() && this.cfg == cfg && this.store == store && codes == map[]
    {
      this.cfg, this.store, this.codes := cfg, store, map[];
    }

    lemma Decisions(form: ApprovalForm, now: nat, issuedAt: nat)
      ensures var d := Decide(cfg, form, now, issuedAt);
              && (d == Success(Denied) <==> MayDecide(cfg, form, now) && form.decision == "deny")
              && (d.Success? && d.value.Approved? <==>
                    && MayDecide(cfg, form, now) && form.decision == "approve" && form.ownerSecret == cfg.ownerSecret
                    && exists g: ScopeGrant :: Grants(form, g.names))
              && (d.Success? && d.value.Approved? ==>
                    && Grants(form, d.value.record.scopes.names)
                    && d.value.record == AuthorizationCode(form.request.client, form.request.redirectUri, d.value.record.scopes, form.request.resource,
                                                           form.request.codeChallenge, SaturatingAdd(issuedAt, cfg.authorizationCodeTtl)))
    {
      var d := Decide(cfg, form, now, issuedAt);
      RefusesExactly(cfg, form, now, issuedAt);
      DecidesExactly(cfg, form, now, issuedAt, if d.Success? && d.value.Approved? then d.value.record.scopes else ScopeGrant({}));
    }

    /** `client` is `None` when client authentication failed. Returns the code handed to the browser. */
    method CompleteAuthorization(form: ApprovalForm, code: string, now: nat, issuedAt: nat, prunedAt: nat)
      returns (r: Result<Option<string>, OAuthError>)
      modifies this`codes
      ensures match Decide(cfg, form, now, issuedAt)
              case Failure(e) => r == Failure(e) && codes == old(codes)
              case Success(Denied) => r == Success(None) && codes == old(codes)
              case Success(Approved(record)) => r == Success(Some(code)) && codes == LiveCodes(old(codes), prunedAt)[code := record]
      ensures r == Success(None) <==> MayDecide(cfg, form, now) && form.decision == "deny"
      ensures r.Success? && r.value.Some? <==>
              && MayDecide(cfg, form, now) && form.decision == "approve" && form.ownerSecret == cfg.ownerSecret
              && exists g: ScopeGrant :: Grants(form, g.names)
      ensures r.Success? && r.value.Some? ==>
              && r.value.value == code && code in codes && Grants(form, codes[code].scopes.names)
              && codes[code] == AuthorizationCode(form.request.client, form.request.redirectUri, codes[code].scopes, form.request.resource,
                                                  form.request.codeChallenge, SaturatingAdd(issuedAt, cfg.authorizationCodeTtl))
              && forall c | c != code ::
                   && (c in codes <==> c in old(codes) && prunedAt < old(codes)[c].expiresAt)
                   && (c in codes ==> codes[c] == old(codes)[c])
    {
      Decisions(form, now, issuedAt);
      var decision := Decide(cfg, form, now, issuedAt);
      match decision
      case Failure(e) => return Failure(e);
      case Success(Denied) => return Success(None);
      case Success(Approved(record)) =>
        codes := LiveCodes(codes, prunedAt);
        codes := codes[code := record];
        return Success(Some(code));
    }

    /**
      A well-formed request from an authenticated client consumes the code it names whatever happens
      next; tokens come back exactly when the record matches and the new family is stored.
     */
    method ExchangeAuthorizationCode(request: TokenRequest, client: Option<Client>, draw: Draw, now: nat,
                                     issuedAt: nat, accessAt: nat, io: Io)
      returns (r: Result<TokenPair, OAuthError>)
      requires Valid() && draw.familyId != ""
      modifies this`codes, store
      ensures Valid()
      ensures !CodeRequestWellFormed(cfg, request) || client.None? ==> codes == old(codes)
      ensures CodeRequestWellFormed(cfg, request) && client.Some? ==> codes == old(codes) - {request.code.value}
      ensures r.Success? ==>
        && CodeRequestWellFormed(cfg, request) && client.Some? && request.code.value in old(codes)
        && var record := old(codes)[request.code.value];
        && CodeMatches(cfg, record, client.value, request, now)
        && r.value.refresh == RefreshFor(cfg, record.scopes, client.value, draw.familyId, draw.tokenId, issuedAt)
        && r.value.access == AccessFor(cfg, record.scopes, draw.familyId, draw.accessId, accessAt)
        && store.state == PlanFor(old(store.state), StoreRequest(r.value.refresh, None)).next
      ensures r.Failure? ==> store.state == old(store.state)
      ensures CodeRequestWellFormed(cfg, request) && client.Some? && request.code.value in old(codes) ==>
        var record := old(codes)[request.code.value];
        var refresh := RefreshFor(cfg, record.scopes, client.value, draw.familyId, draw.tokenId, issuedAt);
        (r.Success? <==>
          && CodeMatches(cfg, record, client.value, request, now) && record.scopes.IsValid()
          && Answer(PlanFor(old(store.state), StoreRequest(refresh, None)), io.AllSucceed()) == Done)
      ensures codes == if IsCodeRequest(cfg, request) && client.Some? then old(codes) - {request.code.value} else old(codes)
      ensures r.Success? <==>
        && IsCodeRequest(cfg, request) && client.Some? && request.code.value in old(codes)
        && var record := old(codes)[request.code.value];
        && MayExchange(cfg, record, client.value, request, now) && AreKnown(record.scopes.names)
        && (draw.familyId in old(store.state).families ==> old(store.state).families[draw.familyId].expiresAt <= issuedAt)
        && io.open && io.write && io.sync && io.rename
      ensures r.Success? ==>
        && AreIssued(cfg, r.value, draw.familyId, old(codes)[request.code.value].scopes, client.value, draw, issuedAt, accessAt)
        && draw.familyId in store.state.families
        && store.state.families[draw.familyId] == Family(TokenHash(draw.tokenId), r.value.refresh.expiresAt, false)
    {
      CodeRules(request, client, draw, now, issuedAt);
      if !CodeRequestWellFormed(cfg, request) { return Failure(InvalidGrant); }
      if client.None? { return Failure(InvalidClient); }
      var code := request.code.value;
      if code !in codes {
        assert codes - {code} == codes;
        return Failure(InvalidGrant);
      }
      var record := codes[code];
      codes := codes - {code};
      if !CodeMatches(cfg, record, client.value, request, now) { return Failure(InvalidGrant); }
      if !record.scopes.IsValid() { return Failure(InvalidTarget); }
      var access := AccessFor(cfg, record.scopes, draw.familyId, draw.accessId, accessAt);
      var refresh := RefreshFor(cfg, record.scopes, client.value, draw.familyId, draw.tokenId, issuedAt);
      var reply := store.CreateFamily(draw.familyId, TokenHash(draw.tokenId), refresh.expiresAt, issuedAt, io);
      match reply
      case Refused(e) => return Failure(e);
      case Done => return Success(TokenPair(access, refresh));
    }

    /** What decides an exchange, from the tables it finds. */
    lemma CodeRules(request: TokenRequest, client: Option<Client>, draw: Draw, now: nat, issuedAt: nat)
      ensures CodeRequestWellFormed(cfg, request) <==> IsCodeRequest(cfg, request)
      ensures IsCodeRequest(cfg, request) && client.Some? && request.code.value in codes ==>
                var record := codes[request.code.value];
                CodeMatches(cfg, record, client.value, request, now) <==> MayExchange(cfg, record, client.value, request, now)
      ensures var plan := PlanFor(store.state, Create(draw.familyId, TokenHash(draw.tokenId), SaturatingAdd(issuedAt, cfg.refreshTokenTtl), issuedAt));
              && (plan.reply == Done <==> draw.familyId in store.state.families ==> store.state.families[draw.familyId].expiresAt <= issuedAt)
              && (plan.reply == Done ==>
                    && plan.write && draw.familyId in plan.next.families
                    && plan.next.families[draw.familyId] == Family(TokenHash(draw.tokenId), SaturatingAdd(issuedAt, cfg.refreshTokenTtl), false))
    {
      CreatesExactlyFreeFamilies(store.state, draw.familyId, TokenHash(draw.tokenId), SaturatingAdd(issuedAt, cfg.refreshTokenTtl), issuedAt);
      if client.Some? && request.code.Some? && request.code.value in codes {
        ExchangesExactly(cfg, codes[request.code.value], client.value, request, now);
      }
    }

    /** Tokens come back exactly when the claims pass, the presented token is the active one and the rotation is stored. */
    method ExchangeRefreshToken(request: TokenRequest, client: Option<Client>, draw: Draw, now: nat, accessAt: nat, io: Io)
      returns (r: Result<TokenPair, OAuthError>)
      requires Valid()
      modifies store
      ensures Valid()
      ensures
        if request.refreshToken.Some? && client.Some? && CheckRefresh(cfg, request.refreshToken.value, client.value, request, now).Success? then
          var claims := request.refreshToken.value;
          var scopes := CheckRefresh(cfg, claims, client.value, request, now).value;
          var next := RefreshFor(cfg, scopes, client.value, claims.familyId, draw.tokenId, now);
          var plan := PlanFor(old(store.state), StoreRequest(next, Some(claims)));
          && store.state == Settle(old(store.state), plan, io.AllSucceed())
          && match Answer(plan, io.AllSucceed())
             case Done => r == Success(TokenPair(AccessFor(cfg, scopes, claims.familyId, draw.accessId, accessAt), next))
             case Refused(e) => r == Failure(e)
        else r.Failure? && store.state == old(store.state)
      ensures r.Success? <==>
        && request.refreshToken.Some? && client.Some?
        && var claims := request.refreshToken.value;
        && (exists g: ScopeGrant :: MayRefresh(cfg, claims, client.value, request, now, g.names))
        && claims.familyId in old(store.state).families
        && var family := old(store.state).families[claims.familyId];
        && !family.revoked && now < family.expiresAt && family.activeTokenHash == TokenHash(claims.tokenId)
        && io.open && io.write && io.sync && io.rename
      ensures r.Success? ==>
        var claims := request.refreshToken.value;
        && MayRefresh(cfg, claims, client.value, request, now, r.value.refresh.scopes.names)
        && AreIssued(cfg, r.value, claims.familyId, r.value.refresh.scopes, client.value, draw, now, accessAt)
        && (request.scope.None? ==> r.value.refresh.scopes == r.value.access.scopes == claims.scopes)
        && claims.familyId in store.state.families
        && store.state.families[claims.familyId] == Family(TokenHash(draw.tokenId), r.value.refresh.expiresAt, false)
    {
      RefreshRules(request, client, draw, now);
      if request.refreshToken.None? { return Failure(InvalidGrant); }
      if client.None? { return Failure(InvalidClient); }
      var claims := request.refreshToken.value;
      match CheckRefresh(cfg, claims, client.value, request, now)
      case Failure(e) => return Failure(e);
      case Success(scopes) =>
        var access := AccessFor(cfg, scopes, claims.familyId, draw.accessId, accessAt);
        var next := RefreshFor(cfg, scopes, client.value, claims.familyId, draw.tokenId, now);
        var reply := store.RotateFamily(claims.familyId, TokenHash(claims.tokenId), TokenHash(draw.tokenId), next.expiresAt, now, io);
        match reply {
          case Refused(e) => return Failure(e);
          case Done => return Success(TokenPair(access, next));
        }
    }

    /** What decides a refresh, from the store it finds. */
    lemma RefreshRules(request: TokenRequest, client: Option<Client>, draw: Draw, now: nat)
      ensures request.refreshToken.Some? && client.Some? ==>
        var claims := request.refreshToken.value;
        var checked := CheckRefresh(cfg, claims, client.value, request, now);
        var plan := PlanFor(store.state, Rotate(claims.familyId, TokenHash(claims.tokenId), TokenHash(draw.tokenId), SaturatingAdd(now, cfg.refreshTokenTtl), now));
        && (checked.Success? <==> exists g: ScopeGrant :: MayRefresh(cfg, claims, client.value, request, now, g.names))
        && (checked.Success? ==> MayRefresh(cfg, claims, client.value, request, now, checked.value.names))
        && (plan.reply == Done <==>
              && claims.familyId in store.state.families && !store.state.families[claims.familyId].revoked
              && now < store.state.families[claims.familyId].expiresAt
              && store.state.families[claims.familyId].activeTokenHash == TokenHash(claims.tokenId))
        && (plan.reply == Done ==>
              && plan.write && claims.familyId in plan.next.families
              && plan.next.families[claims.familyId] == Family(TokenHash(draw.tokenId), SaturatingAdd(now, cfg.refreshTokenTtl), false))
    {
      if request.refreshToken.Some? && client.Some? {
        var claims := request.refreshToken.value;
        var checked := CheckRefresh(cfg, claims, client.value, request, now);
        RotatesExactlyTheActiveToken(store.state, claims.familyId, TokenHash(claims.tokenId), TokenHash(draw.tokenId),
                                     SaturatingAdd(now, cfg.refreshTokenTtl), now);
        if checked.Success? { RefreshesExactly(cfg, claims, client.value, request, now, checked.value); }
        forall g: ScopeGrant | MayRefresh(cfg, claims, client.value, request, now, g.names) ensures checked == Success(g) {
          RefreshesExactly(cfg, claims, client.value, request, now, g);
        }
      }
    }

    /** Accepted exactly while the token and its family are unexpired and the family is not revoked. */
    method AuthenticateBearer(claims: Option<AccessClaims>, now: nat) returns (r: Result<AccessScope, OAuthError>)
      ensures r.Success? <==> claims.Some? && BearerClaimsValid(cfg, claims.value, now) && IsActive(store.state, claims.value.familyId, now)
      ensures r.Success? ==> r.value == claims.value.scopes.AccessScope()
      ensures r.Success? <==>
        && claims.Some? && claims.value.version == 1 && claims.value.audience == cfg.resource && AreKnown(claims.value.scopes.names)
        && now < claims.value.expiresAt && claims.value.familyId != "" && claims.value.familyId in store.state.families
        && !store.state.families[claims.value.familyId].revoked && now < store.state.families[claims.value.familyId].expiresAt
      ensures r.Success? ==> (r.value == Private <==> "kb:private" in claims.value.scopes.names)
    {
      if claims.None? || !BearerClaimsValid(cfg, claims.value, now) { return Failure(InvalidGrant); }
      var active := store.Active(claims.value.familyId, now);
      if !active { return Failure(InvalidGrant); }
      return Success(claims.value.scopes.AccessScope());
    }
  }

  /** What is asked of the store for `next`: a new family, or the replacement of the presented token. */
  function StoreRequest(next: RefreshClaims, presented: Option<RefreshClaims>): (r: Request) {
    match presented
    case None => Create(next.familyId, TokenHash(next.tokenId), next.expiresAt, next.issuedAt)
    case Some(p) => Rotate(p.familyId, TokenHash(p.tokenId), TokenHash(next.tokenId), next.expiresAt, next.issuedAt)
  }
}
