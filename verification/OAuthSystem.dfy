/**
  The authorization server as a step system: concurrent requests, one store lock, a state file written in
  separate steps, failing writes, crashes at any point and restarts.

  A request runs its checks without the lock and then waits for it with the clock reading it made. The clock
  is an input of every step and need not be monotone. `Ledger` holds what the steps have done so far; no step
  reads it except to require that random values are fresh and that presented credentials were handed out.
 */
module OAuthSystem {
  import opened Common
  import opened ScopeGrants
  import opened RefreshStore
  import opened OAuthProtocol

  /** The server's configuration and the encoding of its state file. */
  datatype Env = Env(cfg: Config, codec: Codec)

  /** A request that has passed its checks: the tokens it has signed, and what it exchanges for them. */
  datatype Ticket =
    | Redeem(next: TokenPair, code: string, verifier: string)
    | Refresh(next: TokenPair, presented: RefreshClaims)

  function Asks(t: Ticket): (r: Request) {
    StoreRequest(t.next.refresh, if t.Refresh? then Some(t.presented) else None)
  }

  /** How far the lock holder has come with `persist`. */
  datatype Stage = Opening | Writing | Written | Renamed

  datatype Lock = Free | Held(ticket: Ticket, plan: Plan, stage: Stage)

  datatype Process =
    | Down
    | Up(memory: State, codes: map<string, AuthorizationCode>, waiting: set<Ticket>, lock: Lock)

  /** An authorization the owner approved, with the request it answers. */
  datatype Approval = Approval(request: ApprovalRequest, record: AuthorizationCode)

  /** A family: the code it was created from, the verifier presented with it, and its refresh tokens in order. */
  datatype History = History(code: string, verifier: string, links: seq<RefreshClaims>)

  datatype Ledger = Ledger(
    drawn: set<string>,
    clients: set<Client>,
    approvalRequests: set<ApprovalRequest>,
    approved: map<string, Approval>,
    burned: set<string>,
    families: map<string, History>,
    // where each stored refresh-token id stands: its family and its position in that family
    places: map<string, (string, nat)>,
    // the token pairs returned to clients
    returned: set<TokenPair>)

  datatype World = World(disk: Disk, process: Process, ledger: Ledger)

  datatype Action =
    | RegisterClient(redirectUris: set<string>, authMethod: ClientAuthenticationMethod, scope: Option<string>, now: nat)
    | RequestApproval(client: Client, query: AuthorizationQuery, now: nat)
    | Approve(form: ApprovalForm, code: string, now: nat, issuedAt: nat, prunedAt: nat)
    // `draws` is None when the random source fails
    | ExchangeCode(client: Client, request: TokenRequest, draws: Option<Draw>, now: nat, issuedAt: nat, accessAt: nat)
    | BeginRefresh(client: Client, request: TokenRequest, draw: Draw, now: nat, accessAt: nat)
    | TakeLock(ticket: Ticket)
    | OpenTemp
    | WriteTemp(written: nat)
    | FinishWrite
    | Rename
    | FailPersist
    | Commit
    | Crash
    | Restart
    | Bearer(claims: AccessClaims, now: nat)

  function Init(): (r: World) {
    World(Disk(None, None), Down, Ledger({}, {}, {}, map[], {}, map[], map[], {}))
  }

  predicate Fresh(l: Ledger, value: string) {
    value != "" && value !in l.drawn
  }

  predicate FreshDraw(l: Ledger, d: Draw) {
    && Fresh(l, d.familyId) && Fresh(l, d.accessId) && Fresh(l, d.tokenId)
    && d.familyId != d.accessId && d.accessId != d.tokenId && d.tokenId != d.familyId
  }

  predicate LockAt(w: World, stages: set<Stage>) {
    w.process.Up? && w.process.lock.Held? && w.process.lock.stage in stages
  }

  /** When a step can be taken. Credentials presented to the server are ones it handed out. */
  predicate Enabled(env: Env, w: World, a: Action) {
    match a
    case RegisterClient(_, _, _, _) => w.process.Up?
    case RequestApproval(client, _, _) => w.process.Up? && client in w.ledger.clients
    case Approve(form, code, _, _, _) => w.process.Up? && form.request in w.ledger.approvalRequests && Fresh(w.ledger, code)
    case ExchangeCode(client, request, draws, _, _, _) =>
      w.process.Up? && client in w.ledger.clients && CodeRequestWellFormed(env.cfg, request)
      && (draws.Some? ==> FreshDraw(w.ledger, draws.value))
    case BeginRefresh(client, request, draw, _, _) =>
      w.process.Up? && client in w.ledger.clients && FreshDraw(w.ledger, draw)
      && request.refreshToken.Some? && exists p | p in w.ledger.returned :: p.refresh == request.refreshToken.value
    case TakeLock(t) => w.process.Up? && w.process.lock.Free? && t in w.process.waiting
    case OpenTemp => LockAt(w, {Opening})
    case WriteTemp(n) => LockAt(w, {Writing}) && n <= |env.codec.encode(w.process.lock.plan.next)|
    case FinishWrite => LockAt(w, {Writing})
    case Rename => LockAt(w, {Written})
    case FailPersist => LockAt(w, {Opening, Writing, Written})
    case Commit => LockAt(w, {Renamed})
    case Crash => w.process.Up?
    case Restart => w.process.Down? && Load(env.codec, w.disk).Success?
    case Bearer(claims, _) => w.process.Up? && w.process.lock.Free? && exists p | p in w.ledger.returned :: p.access == claims
  }

  // ---- The effect of each step ----

  function Step(env: Env, w: World, a: Action): (r: World)
    requires Enabled(env, w, a)
  {
    match a
    case RegisterClient(uris, authMethod, scope, now) =>
      w.(ledger := w.ledger.(clients := w.ledger.clients + {Client(1, uris, authMethod, RegistrationScopes(scope), now)}))
    case RequestApproval(client, query, now) => DoRequestApproval(env, w, client, query, now)
    case Approve(form, code, now, issuedAt, prunedAt) => DoApprove(env, w, form, code, now, issuedAt, prunedAt)
    case ExchangeCode(client, request, draws, now, issuedAt, accessAt) =>
      DoExchangeCode(env, w, client, request, draws, now, issuedAt, accessAt)
    case BeginRefresh(client, request, draw, now, accessAt) => DoBeginRefresh(env, w, client, request, draw, now, accessAt)
    case TakeLock(t) => DoTakeLock(w, t)
    case OpenTemp => AtStage(w, Writing).(disk := w.disk.(temp := Some([])))
    case WriteTemp(n) => w.(disk := w.disk.(temp := Some(env.codec.encode(w.process.lock.plan.next)[..n])))
    case FinishWrite => AtStage(w, Written).(disk := w.disk.(temp := Some(env.codec.encode(w.process.lock.plan.next))))
    case Rename => DoRename(w)
    case FailPersist => Unlock(w)
    case Commit => DoCommit(w)
    case Crash => w.(process := Down)
    case Restart => w.(process := Up(Load(env.codec, w.disk).value, map[], {}, Free))
    case Bearer(_, _) => w
  }

  function AtStage(w: World, stage: Stage): (r: World)
    requires w.process.Up? && w.process.lock.Held?
  {
    w.(process := w.process.(lock := w.process.lock.(stage := stage)))
  }

  function Unlock(w: World): (r: World)
    requires w.process.Up?
  {
    w.(process := w.process.(lock := Free))
  }

  function DoRequestApproval(env: Env, w: World, client: Client, query: AuthorizationQuery, now: nat): (r: World) {
    match BeginAuthorization(env.cfg, client, query, now)
    case Failure(_) => w
    case Success(request) => w.(ledger := w.ledger.(approvalRequests := w.ledger.approvalRequests + {request}))
  }

  function DoApprove(env: Env, w: World, form: ApprovalForm, code: string, now: nat, issuedAt: nat, prunedAt: nat): (r: World)
    requires w.process.Up?
  {
    match Decide(env.cfg, form, now, issuedAt)
    case Failure(_) => w
    case Success(Denied) => w
    case Success(Approved(record)) => DoRecordApproval(w, code, Approval(form.request, record), prunedAt)
  }

  function DoRecordApproval(w: World, code: string, approval: Approval, prunedAt: nat): (r: World)
    requires w.process.Up?
  {
    w.(process := w.process.(codes := LiveCodes(w.process.codes, prunedAt)[code := approval.record]),
       ledger := w.ledger.(drawn := w.ledger.drawn + {code}, approved := w.ledger.approved[code := approval]))
  }

  function DoExchangeCode(env: Env, w: World, client: Client, request: TokenRequest, draws: Option<Draw>,
                          now: nat, issuedAt: nat, accessAt: nat): (r: World)
    requires w.process.Up? && CodeRequestWellFormed(env.cfg, request)
  {
    var code := request.code.value;
    if code !in w.process.codes then w
    else
      var record := w.process.codes[code];
      var burnt := Burn(w, code);
      if !CodeMatches(env.cfg, record, client, request, now) || draws.None? || !record.scopes.IsValid() then burnt
      else
        var d := draws.value;
        var next := TokenPair(AccessFor(env.cfg, record.scopes, d.familyId, d.accessId, accessAt),
                              RefreshFor(env.cfg, record.scopes, client, d.familyId, d.tokenId, issuedAt));
        Admit(burnt, Redeem(next, code, request.codeVerifier.value), d)
  }

  /** The code is gone before anything about the request is compared with its record. */
  function Burn(w: World, code: string): (r: World)
    requires w.process.Up?
  {
    w.(process := w.process.(codes := w.process.codes - {code}),
       ledger := w.ledger.(burned := w.ledger.burned + {code}))
  }

  function DoBeginRefresh(env: Env, w: World, client: Client, request: TokenRequest, d: Draw, now: nat, accessAt: nat): (r: World)
    requires w.process.Up? && request.refreshToken.Some?
  {
    var presented := request.refreshToken.value;
    match CheckRefresh(env.cfg, presented, client, request, now)
    case Failure(_) => w
    case Success(scopes) =>
      var next := TokenPair(AccessFor(env.cfg, scopes, presented.familyId, d.accessId, accessAt),
                            RefreshFor(env.cfg, scopes, client, presented.familyId, d.tokenId, now));
      Admit(w, Refresh(next, presented), d)
  }

  function Admit(w: World, t: Ticket, d: Draw): (r: World)
    requires w.process.Up?
  {
    w.(process := w.process.(waiting := w.process.waiting + {t}),
       ledger := w.ledger.(drawn := w.ledger.drawn + {d.familyId, d.accessId, d.tokenId}))
  }

  /** Under the lock: plan the operation, and answer at once when nothing has to be written. */
  function DoTakeLock(w: World, t: Ticket): (r: World)
    requires w.process.Up?
  {
    var plan := PlanFor(w.process.memory, Asks(t));
    w.(process := w.process.(waiting := w.process.waiting - {t}, lock := if plan.write then Held(t, plan, Opening) else Free))
  }

  /** The state file is replaced: from here on the operation has happened, even if the process dies now. */
  function DoRename(w: World): (r: World)
    requires LockAt(w, {Written})
  {
    var lock := w.process.lock;
    AtStage(w, Renamed).(disk := Disk(w.disk.temp, None),
                         ledger := if lock.plan.reply == Done then Record(w.ledger, lock.ticket) else w.ledger)
  }

  function Record(l: Ledger, t: Ticket): (r: Ledger) {
    var claims := t.next.refresh;
    var f := claims.familyId;
    var h := match t
      case Redeem(_, code, verifier) => History(code, verifier, [claims])
      case Refresh(_, _) =>
        var before := if f in l.families then l.families[f] else History("", "", []);
        before.(links := before.links + [claims]);
    l.(families := l.families[f := h], places := l.places[claims.tokenId := (f, |h.links| - 1)])
  }

  /** Memory follows the file, the lock is released, and a successful request gets its tokens. */
  function DoCommit(w: World): (r: World)
    requires LockAt(w, {Renamed})
  {
    var lock := w.process.lock;
    w.(process := w.process.(memory := lock.plan.next, lock := Free),
       ledger := if lock.plan.reply == Done then w.ledger.(returned := w.ledger.returned + {lock.ticket.next}) else w.ledger)
  }

  // ---- Observations ----

  /** This step makes a refresh token's successor durable: the token has been redeemed. */
  predicate Redeems(w: World, a: Action, token: RefreshClaims) {
    && a == Rename && LockAt(w, {Written})
    && w.process.lock.plan.reply == Done
    && w.process.lock.ticket.Refresh? && w.process.lock.ticket.presented == token
  }

  /** This step creates a family from an authorization code. */
  predicate Founds(w: World, a: Action, code: string) {
    && a == Rename && LockAt(w, {Written})
    && w.process.lock.plan.reply == Done
    && w.process.lock.ticket.Redeem? && w.process.lock.ticket.code == code
  }

  /** This step authenticates a bearer of `claims`. */
  predicate Accepts(env: Env, w: World, a: Action, claims: AccessClaims) {
    && a.Bearer? && a.claims == claims && w.process.Up?
    && BearerClaimsValid(env.cfg, claims, a.now) && IsActive(w.process.memory, claims.familyId, a.now)
  }

  /** A run: states one longer than actions, each action enabled where it is taken. */
  ghost predicate IsRun(env: Env, states: seq<World>, actions: seq<Action>) {
    && |states| == |actions| + 1
    && states[0] == Init()
    && forall i: nat | i < |actions| :: Goes(env, states, actions, i)
  }

  ghost predicate Goes(env: Env, states: seq<World>, actions: seq<Action>, i: nat)
    requires i < |actions| < |states|
  {
    Enabled(env, states[i], actions[i]) && states[i + 1] == Step(env, states[i], actions[i])
  }
}
