/** What every step of the authorization server keeps. */
module OAuthInvariant {
  import opened Common
  import opened ScopeGrants
  import opened RefreshStore
  import opened OAuthProtocol
  import opened OAuthSystem

  /** The state the file stores: memory, except between the rename and the commit that follows it. */
  ghost function Durable(env: Env, w: World): (r: State) {
    if w.process.Up? then
      if w.process.lock.Held? && w.process.lock.stage == Renamed then w.process.lock.plan.next else w.process.memory
    else if w.disk.final.Some? && env.codec.decode(w.disk.final.value).Some? then env.codec.decode(w.disk.final.value).value
    else DEFAULT_STATE
  }

  ghost predicate StorageInv(env: Env, w: World) {
    && Stores(env.codec, w.disk, Durable(env, w))
    && (w.process.Up? && w.process.lock.Held? ==>
          var lock := w.process.lock;
          && lock.plan == PlanFor(w.process.memory, Asks(lock.ticket))
          && lock.plan.write
          && (lock.stage == Written ==> w.disk.temp == Some(env.codec.encode(lock.plan.next))))
  }

  /** Tickets whose operation has not happened yet. */
  ghost function Outstanding(w: World): (r: set<Ticket>) {
    if w.process.Up? then
      w.process.waiting + if w.process.lock.Held? && w.process.lock.stage != Renamed then {w.process.lock.ticket} else {}
    else {}
  }

  ghost function Last(h: History): (r: RefreshClaims)
    requires h.links != []
  {
    h.links[|h.links| - 1]
  }

  // ---- The ledger ----

  ghost predicate RequestOk(l: Ledger, r: ApprovalRequest) {
    r.client in l.clients && r.client.scopes.Allows(r.requestedScopes)
  }

  ghost predicate ApprovalOk(l: Ledger, a: Approval) {
    && a.request in l.approvalRequests && RequestOk(l, a.request)
    && a.record.client == a.request.client
    && a.record.redirectUri == a.request.redirectUri
    && a.record.codeChallenge == a.request.codeChallenge
    && a.record.scopes.IsSubsetOf(a.request.requestedScopes)
    && a.request.client.scopes.Allows(a.record.scopes)
    && a.record.scopes.IsValid()
  }

  /** A redeemed code: approved, burned, and matched by its verifier. */
  ghost predicate RedeemedOk(cfg: Config, l: Ledger, code: string, verifier: string) {
    && code in l.approved && code in l.burned
    && VerifyPkce(cfg, verifier, l.approved[code].record.codeChallenge)
  }

  ghost predicate LinkOk(l: Ledger, f: string, i: nat)
    requires f in l.families && i < |l.families[f].links|
  {
    var h := l.families[f];
    && h.links[i].familyId == f
    && h.links[i].tokenId in l.places && l.places[h.links[i].tokenId] == (f, i)
    && h.code in l.approved
    && h.links[i].clientBinding == ClientBinding(l.approved[h.code].record.client)
    && h.links[i].scopes.IsValid()
    && (i > 0 ==> h.links[i - 1].scopes.Allows(h.links[i].scopes))
  }

  ghost predicate FamilyOk(cfg: Config, l: Ledger, f: string)
    requires f in l.families
  {
    var h := l.families[f];
    && f in l.drawn
    && h.links != []
    && RedeemedOk(cfg, l, h.code, h.verifier)
    && h.links[0].scopes == l.approved[h.code].record.scopes
    && forall i: nat | i < |h.links| :: LinkOk(l, f, i)
  }

  /** The refresh token stands in its family's history. */
  ghost predicate Placed(l: Ledger, claims: RefreshClaims) {
    && claims.tokenId in l.places
    && var (f, i) := l.places[claims.tokenId];
    && f == claims.familyId && f in l.families && i < |l.families[f].links| && l.families[f].links[i] == claims
  }

  ghost predicate IsLast(l: Ledger, claims: RefreshClaims) {
    var f := claims.familyId;
    f in l.families && l.families[f].links != [] && Last(l.families[f]) == claims
  }

  ghost predicate PairOk(p: TokenPair) {
    p.access.familyId == p.refresh.familyId && p.access.scopes == p.refresh.scopes
  }

  ghost predicate OneFamilyPerCode(l: Ledger) {
    forall f, g | f in l.families && g in l.families :: l.families[f].code == l.families[g].code ==> f == g
  }

  ghost predicate LedgerInv(cfg: Config, l: Ledger) {
    && (forall r | r in l.approvalRequests :: RequestOk(l, r))
    && (forall c | c in l.approved :: c in l.drawn && ApprovalOk(l, l.approved[c]))
    && (forall c | c in l.burned :: c in l.drawn)
    && (forall f | f in l.families :: FamilyOk(cfg, l, f))
    && OneFamilyPerCode(l)
    && (forall t | t in l.places :: t in l.drawn)
    && (forall p | p in l.returned :: PairOk(p) && Placed(l, p.refresh))
  }

  // ---- The running process ----

  ghost predicate CodesOk(l: Ledger, codes: map<string, AuthorizationCode>) {
    forall c | c in codes :: c in l.approved && l.approved[c].record == codes[c] && c !in l.burned
  }

  ghost predicate TicketOk(cfg: Config, l: Ledger, t: Ticket) {
    var claims := t.next.refresh;
    && PairOk(t.next)
    && claims.tokenId in l.drawn && claims.tokenId !in l.places
    && claims.scopes.IsValid()
    && match t
       case Redeem(_, code, verifier) =>
         && claims.familyId in l.drawn && claims.familyId !in l.families
         && RedeemedOk(cfg, l, code, verifier)
         && (forall f | f in l.families :: l.families[f].code != code)
         && claims.scopes == l.approved[code].record.scopes
         && claims.clientBinding == ClientBinding(l.approved[code].record.client)
       case Refresh(_, presented) =>
         && Placed(l, presented)
         && presented.familyId == claims.familyId
         && presented.scopes.Allows(claims.scopes)
         && presented.clientBinding == claims.clientBinding
  }

  /** Two requests in flight never share a drawn value or a code. */
  ghost predicate Apart(t: Ticket, u: Ticket) {
    t != u ==>
      && t.next.refresh.tokenId != u.next.refresh.tokenId
      && (t.Redeem? && u.Redeem? ==> t.code != u.code && t.next.refresh.familyId != u.next.refresh.familyId)
  }

  ghost predicate ProcessInv(cfg: Config, w: World) {
    && (w.process.Up? ==> CodesOk(w.ledger, w.process.codes))
    && (forall t | t in Outstanding(w) :: TicketOk(cfg, w.ledger, t))
    && (forall t, u | t in Outstanding(w) && u in Outstanding(w) :: Apart(t, u))
    && (w.process.Up? && w.process.lock.Held? ==>
          w.process.lock.ticket !in w.process.waiting && w.process.lock.ticket.next.refresh.tokenId in w.ledger.drawn)
    && (LockAt(w, {Renamed}) && w.process.lock.plan.reply == Done ==>
          var claims := w.process.lock.ticket.next.refresh;
          PairOk(w.process.lock.ticket.next) && Placed(w.ledger, claims) && IsLast(w.ledger, claims))
  }

  // ---- The stored families ----

  /** A stored family is one the ledger knows, and while it lives its active token is the last link. */
  ghost predicate StoredOk(l: Ledger, f: string, family: Family) {
    && f in l.families && l.families[f].links != []
    && family.expiresAt == Last(l.families[f]).expiresAt
    && (!family.revoked ==> family.activeTokenHash == TokenHash(Last(l.families[f]).tokenId))
  }

  ghost predicate StoreInv(l: Ledger, s: State) {
    forall f | f in s.families :: StoredOk(l, f, s.families[f])
  }

  ghost predicate Inv(env: Env, w: World) {
    && env.codec.RoundTrips()
    && StorageInv(env, w)
    && LedgerInv(env.cfg, w.ledger)
    && ProcessInv(env.cfg, w)
    && StoreInv(w.ledger, Durable(env, w))
  }

  // ---- Each step keeps it ----

  lemma InitInv(env: Env)
    requires env.codec.RoundTrips()
    ensures Inv(env, Init())
  {
  }

  /** The lock holder moves along within its persist, or gives up; nothing else happens. */
  ghost predicate Advances(env: Env, w: World, v: World) {
    && v.ledger == w.ledger && v.disk.final == w.disk.final && w.process.Up? && v.process.Up?
    && v.process.memory == w.process.memory && v.process.codes == w.process.codes && v.process.waiting == w.process.waiting
    && (v == w ||
          (LockAt(w, {Opening, Writing, Written}) &&
            (v.process.lock.Free? ||
              (LockAt(v, {Writing, Written})
                && v.process.lock.ticket == w.process.lock.ticket && v.process.lock.plan == w.process.lock.plan
                && (v.process.lock.stage == Written ==> v.disk.temp == Some(env.codec.encode(v.process.lock.plan.next)))))))
  }

  lemma LockStepAdvances(env: Env, w: World, a: Action)
    requires Enabled(env, w, a)
    requires a.OpenTemp? || a.WriteTemp? || a.FinishWrite? || a.FailPersist? || a.Bearer?
    ensures Advances(env, w, Step(env, w, a))
  {
  }

  lemma AdvanceStorage(env: Env, w: World, v: World)
    requires StorageInv(env, w) && Advances(env, w, v)
    ensures StorageInv(env, v) && Durable(env, v) == Durable(env, w)
  {
  }

  lemma AdvanceProcess(env: Env, w: World, v: World)
    requires ProcessInv(env.cfg, w) && Advances(env, w, v)
    ensures ProcessInv(env.cfg, v)
  {
    assert Outstanding(v) <= Outstanding(w);
  }

  lemma AdvanceInv(env: Env, w: World, v: World)
    requires Inv(env, w) && Advances(env, w, v)
    ensures Inv(env, v)
  {
    AdvanceStorage(env, w, v);
    AdvanceProcess(env, w, v);
  }

  /** Steps inside a persist, failing ones included, and steps that only read. */
  lemma LockStepInv(env: Env, w: World, a: Action)
    requires Inv(env, w) && Enabled(env, w, a)
    requires a.OpenTemp? || a.WriteTemp? || a.FinishWrite? || a.FailPersist? || a.Bearer?
    ensures Inv(env, Step(env, w, a))
  {
    LockStepAdvances(env, w, a);
    AdvanceInv(env, w, Step(env, w, a));
  }

  lemma CrashInv(env: Env, w: World)
    requires Inv(env, w) && w.process.Up?
    ensures Inv(env, Step(env, w, Crash))
    ensures Durable(env, Step(env, w, Crash)) == Durable(env, w)
  {
    var v := Step(env, w, Crash);
    var s := Durable(env, w);
    assert env.codec.decode(env.codec.encode(s)) == Some(s);
    assert Durable(env, v) == s;
    assert Outstanding(v) == {};
  }

  lemma RestartInv(env: Env, w: World)
    requires Inv(env, w) && Enabled(env, w, Restart)
    ensures Inv(env, Step(env, w, Restart))
    ensures Durable(env, Step(env, w, Restart)) == Durable(env, w)
  {
    LoadsExactlyWhatFits(env.codec, w.disk, Durable(env, w));
    assert Outstanding(Step(env, w, Restart)) == {};
  }

  lemma TakeLockInv(env: Env, w: World, t: Ticket)
    requires Inv(env, w) && Enabled(env, w, TakeLock(t))
    ensures Inv(env, DoTakeLock(w, t))
  {
    var v := DoTakeLock(w, t);
    assert Durable(env, v) == Durable(env, w);
    assert Outstanding(v) <= Outstanding(w);
  }

  lemma ReturnedOk(cfg: Config, l: Ledger, p: TokenPair)
    requires LedgerInv(cfg, l) && PairOk(p) && Placed(l, p.refresh)
    ensures LedgerInv(cfg, l.(returned := l.returned + {p}))
  {
    var m := l.(returned := l.returned + {p});
    LedgerGrows(cfg, l, m);
    forall q | q in m.returned ensures PairOk(q) && Placed(m, q.refresh) {
      assert Placed(l, q.refresh);
    }
  }

  lemma CommitInv(env: Env, w: World)
    requires Inv(env, w) && LockAt(w, {Renamed})
    ensures Inv(env, DoCommit(w))
  {
    assert Durable(env, DoCommit(w)) == Durable(env, w);
    if w.process.lock.plan.reply == Done { ReturnedOk(env.cfg, w.ledger, w.process.lock.ticket.next); }
    CommitProcess(env.cfg, w);
  }

  lemma CommitProcess(cfg: Config, w: World)
    requires ProcessInv(cfg, w) && LockAt(w, {Renamed})
    ensures ProcessInv(cfg, DoCommit(w))
  {
    assert Outstanding(DoCommit(w)) == Outstanding(w);
    forall t | t in Outstanding(w) ensures TicketOk(cfg, DoCommit(w).ledger, t) {
      assert TicketOk(cfg, w.ledger, t);
    }
  }

  /** The parts of the ledger that families rest on are only added to. */
  ghost predicate Extends(l: Ledger, m: Ledger) {
    && l.drawn <= m.drawn && l.clients <= m.clients && l.approvalRequests <= m.approvalRequests && l.burned <= m.burned
    && (forall c | c in l.approved :: c in m.approved && m.approved[c] == l.approved[c])
    && m.families == l.families && m.places == l.places
  }

  lemma LedgerGrows(cfg: Config, l: Ledger, m: Ledger)
    requires LedgerInv(cfg, l) && Extends(l, m)
    ensures forall f | f in m.families :: FamilyOk(cfg, m, f)
    ensures forall c | c in l.approved :: ApprovalOk(m, l.approved[c])
    ensures forall p | p in l.returned :: PairOk(p) && Placed(m, p.refresh)
  {
    forall f | f in m.families ensures FamilyOk(cfg, m, f) {
      assert FamilyOk(cfg, l, f);
      forall i: nat | i < |m.families[f].links| ensures LinkOk(m, f, i) {
        assert LinkOk(l, f, i);
      }
    }
    forall c | c in l.approved ensures ApprovalOk(m, l.approved[c]) {
      assert ApprovalOk(l, l.approved[c]);
    }
  }

  /** A step that only adds to the ledger keeps what holds of requests in flight, apart from the freshness of codes. */
  lemma TicketsSurvive(cfg: Config, l: Ledger, m: Ledger, t: Ticket)
    requires LedgerInv(cfg, l) && Extends(l, m) && TicketOk(cfg, l, t)
    ensures TicketOk(cfg, m, t)
  {
  }

  /** Only clients and requests are added to the ledger. */
  ghost predicate Registered(l: Ledger, m: Ledger) {
    && l.clients <= m.clients && l.approvalRequests <= m.approvalRequests
    && m == l.(clients := m.clients, approvalRequests := m.approvalRequests)
  }

  lemma RegisteredInv(env: Env, w: World, v: World)
    requires Inv(env, w) && v == w.(ledger := v.ledger) && Registered(w.ledger, v.ledger)
    requires forall r | r in v.ledger.approvalRequests :: RequestOk(v.ledger, r)
    ensures Inv(env, v)
  {
    assert Durable(env, v) == Durable(env, w) && Outstanding(v) == Outstanding(w);
    LedgerGrows(env.cfg, w.ledger, v.ledger);
    forall t | t in Outstanding(v) ensures TicketOk(env.cfg, v.ledger, t) {
      TicketsSurvive(env.cfg, w.ledger, v.ledger, t);
    }
  }

  lemma RegisterStep(env: Env, w: World, a: Action)
    requires LedgerInv(env.cfg, w.ledger) && Enabled(env, w, a) && (a.RegisterClient? || a.RequestApproval?)
    ensures var v := Step(env, w, a);
            && v == w.(ledger := v.ledger) && Registered(w.ledger, v.ledger)
            && forall r | r in v.ledger.approvalRequests :: RequestOk(v.ledger, r)
  {
  }

  lemma RegisterInv(env: Env, w: World, a: Action)
    requires Inv(env, w) && Enabled(env, w, a) && (a.RegisterClient? || a.RequestApproval?)
    ensures Inv(env, Step(env, w, a))
  {
    RegisterStep(env, w, a);
    RegisteredInv(env, w, Step(env, w, a));
  }

  /** What `Decide` has checked when it approves. */
  lemma ApprovedRecordOk(cfg: Config, l: Ledger, form: ApprovalForm, now: nat, issuedAt: nat)
    requires LedgerInv(cfg, l) && form.request in l.approvalRequests
    requires Decide(cfg, form, now, issuedAt).Success? && Decide(cfg, form, now, issuedAt).value.Approved?
    ensures ApprovalOk(l, Approval(form.request, Decide(cfg, form, now, issuedAt).value.record))
    ensures form.decision == "approve" && form.ownerSecret == cfg.ownerSecret
  {
    assert RequestOk(l, form.request);
  }

  /** A fresh code and its approval are added. */
  lemma ApprovedInv(env: Env, w: World, code: string, approval: Approval, prunedAt: nat)
    requires Inv(env, w) && w.process.Up? && Fresh(w.ledger, code) && ApprovalOk(w.ledger, approval)
    ensures Inv(env, DoRecordApproval(w, code, approval, prunedAt))
  {
    var v := DoRecordApproval(w, code, approval, prunedAt);
    assert Durable(env, v) == Durable(env, w) && Outstanding(v) == Outstanding(w);
    LedgerGrows(env.cfg, w.ledger, v.ledger);
    forall t | t in Outstanding(v) ensures TicketOk(env.cfg, v.ledger, t) {
      TicketsSurvive(env.cfg, w.ledger, v.ledger, t);
    }
  }

  lemma ApproveInv(env: Env, w: World, form: ApprovalForm, code: string, now: nat, issuedAt: nat, prunedAt: nat)
    requires Inv(env, w) && w.process.Up? && form.request in w.ledger.approvalRequests && Fresh(w.ledger, code)
    ensures Inv(env, DoApprove(env, w, form, code, now, issuedAt, prunedAt))
  {
    var decision := Decide(env.cfg, form, now, issuedAt);
    if decision.Success? && decision.value.Approved? {
      ApprovedRecordOk(env.cfg, w.ledger, form, now, issuedAt);
      ApprovedInv(env, w, code, Approval(form.request, decision.value.record), prunedAt);
    }
  }

  /** Burning a code keeps everything, and leaves the code redeemable by nobody else. */
  lemma BurnInv(env: Env, w: World, code: string)
    requires Inv(env, w) && w.process.Up? && code in w.process.codes
    ensures Inv(env, Burn(w, code))
    ensures forall t | t in Outstanding(w) && t.Redeem? :: t.code != code
    ensures forall f | f in w.ledger.families :: w.ledger.families[f].code != code
  {
    var v := Burn(w, code);
    assert Durable(env, v) == Durable(env, w) && Outstanding(v) == Outstanding(w);
    LiveCodeIsUnused(env.cfg, w, code);
    LedgerGrows(env.cfg, w.ledger, v.ledger);
    forall t | t in Outstanding(v) ensures TicketOk(env.cfg, v.ledger, t) {
      TicketsSurvive(env.cfg, w.ledger, v.ledger, t);
    }
  }

  /** A code that can still be exchanged has begun no family and is not being exchanged. */
  lemma LiveCodeIsUnused(cfg: Config, w: World, code: string)
    requires LedgerInv(cfg, w.ledger) && ProcessInv(cfg, w) && w.process.Up? && code in w.process.codes
    ensures code in w.ledger.drawn
    ensures forall t | t in Outstanding(w) && t.Redeem? :: t.code != code
    ensures forall f | f in w.ledger.families :: w.ledger.families[f].code != code
  {
    forall f | f in w.ledger.families ensures w.ledger.families[f].code != code {
      assert FamilyOk(cfg, w.ledger, f);
    }
    forall t | t in Outstanding(w) && t.Redeem? ensures t.code != code {
      assert TicketOk(cfg, w.ledger, t);
    }
  }

  /** Admitting a request whose draws are fresh keeps everything. */
  lemma AdmitInv(env: Env, w: World, t: Ticket, d: Draw)
    requires Inv(env, w) && w.process.Up? && FreshDraw(w.ledger, d)
    requires t.next.refresh.tokenId == d.tokenId
    requires TicketOk(env.cfg, Drawn(w.ledger, d), t)
    requires t.Redeem? ==> t.next.refresh.familyId == d.familyId
    requires t.Redeem? ==> forall u | u in Outstanding(w) && u.Redeem? :: u.code != t.code
    ensures Inv(env, Admit(w, t, d))
  {
    var v := Admit(w, t, d);
    assert Durable(env, v) == Durable(env, w) && StorageInv(env, v);
    AdmitProcess(env.cfg, w, t, d);
  }

  lemma AdmitProcess(cfg: Config, w: World, t: Ticket, d: Draw)
    requires LedgerInv(cfg, w.ledger) && ProcessInv(cfg, w) && w.process.Up? && FreshDraw(w.ledger, d)
    requires t.next.refresh.tokenId == d.tokenId
    requires TicketOk(cfg, Drawn(w.ledger, d), t)
    requires t.Redeem? ==> t.next.refresh.familyId == d.familyId
    requires t.Redeem? ==> forall u | u in Outstanding(w) && u.Redeem? :: u.code != t.code
    ensures LedgerInv(cfg, Admit(w, t, d).ledger) && ProcessInv(cfg, Admit(w, t, d))
  {
    var v := Admit(w, t, d);
    assert v.ledger == Drawn(w.ledger, d);
    DrawnLedger(cfg, w.ledger, d);
    forall u | u in Outstanding(w) ensures TicketOk(cfg, v.ledger, u) && Apart(u, t) && Apart(t, u) {
      AdmittedApart(cfg, w.ledger, u, t, d);
    }
    JoinsApart(cfg, w, t, d);
  }

  lemma JoinsApart(cfg: Config, w: World, t: Ticket, d: Draw)
    requires ProcessInv(cfg, w) && w.process.Up? && TicketOk(cfg, Drawn(w.ledger, d), t) && FreshDraw(w.ledger, d)
    requires t.next.refresh.tokenId == d.tokenId
    requires forall u | u in Outstanding(w) :: TicketOk(cfg, Drawn(w.ledger, d), u) && Apart(u, t) && Apart(t, u)
    ensures ProcessInv(cfg, Admit(w, t, d))
  {
    assert Outstanding(Admit(w, t, d)) == Outstanding(w) + {t};
  }

  lemma DrawnLedger(cfg: Config, l: Ledger, d: Draw)
    requires LedgerInv(cfg, l)
    ensures LedgerInv(cfg, Drawn(l, d))
  {
    LedgerGrows(cfg, l, Drawn(l, d));
  }

  lemma AdmittedApart(cfg: Config, l: Ledger, u: Ticket, t: Ticket, d: Draw)
    requires LedgerInv(cfg, l) && FreshDraw(l, d) && TicketOk(cfg, l, u)
    requires t.next.refresh.tokenId == d.tokenId
    requires t.Redeem? ==> t.next.refresh.familyId == d.familyId
    requires t.Redeem? && u.Redeem? ==> u.code != t.code
    ensures TicketOk(cfg, Drawn(l, d), u) && Apart(u, t) && Apart(t, u)
  {
    TicketsSurvive(cfg, l, Drawn(l, d), u);
  }

  ghost function Drawn(l: Ledger, d: Draw): (r: Ledger) {
    l.(drawn := l.drawn + {d.familyId, d.accessId, d.tokenId})
  }

  /** The ticket a matching request is admitted with. */
  ghost function RedeemTicket(cfg: Config, record: AuthorizationCode, client: Client, request: TokenRequest, d: Draw,
                              issuedAt: nat, accessAt: nat): (r: Ticket)
    requires CodeRequestWellFormed(cfg, request)
  {
    Redeem(TokenPair(AccessFor(cfg, record.scopes, d.familyId, d.accessId, accessAt),
                     RefreshFor(cfg, record.scopes, client, d.familyId, d.tokenId, issuedAt)),
           request.code.value, request.codeVerifier.value)
  }

  lemma RedeemTicketOk(cfg: Config, l: Ledger, record: AuthorizationCode, client: Client, request: TokenRequest, d: Draw,
                       now: nat, issuedAt: nat, accessAt: nat)
    requires LedgerInv(cfg, l) && FreshDraw(l, d) && CodeRequestWellFormed(cfg, request)
    requires CodeMatches(cfg, record, client, request, now) && record.scopes.IsValid()
    requires request.code.value in l.approved && l.approved[request.code.value].record == record && request.code.value in l.burned
    requires forall f | f in l.families :: l.families[f].code != request.code.value
    ensures TicketOk(cfg, Drawn(l, d), RedeemTicket(cfg, record, client, request, d, issuedAt, accessAt))
  {
    assert forall f | f in l.families :: FamilyOk(cfg, l, f);
  }

  lemma ExchangeCodeInv(env: Env, w: World, client: Client, request: TokenRequest, draws: Option<Draw>,
                        now: nat, issuedAt: nat, accessAt: nat)
    requires Inv(env, w) && w.process.Up? && CodeRequestWellFormed(env.cfg, request) && (draws.Some? ==> FreshDraw(w.ledger, draws.value))
    ensures Inv(env, DoExchangeCode(env, w, client, request, draws, now, issuedAt, accessAt))
  {
    var code := request.code.value;
    if code in w.process.codes {
      BurnInv(env, w, code);
      var record := w.process.codes[code];
      if CodeMatches(env.cfg, record, client, request, now) && draws.Some? && record.scopes.IsValid() {
        BurntIsAdmitted(env, w, client, request, draws.value, now, issuedAt, accessAt);
      }
    }
  }

  lemma BurntIsAdmitted(env: Env, w: World, client: Client, request: TokenRequest, d: Draw, now: nat, issuedAt: nat, accessAt: nat)
    requires w.process.Up? && CodeRequestWellFormed(env.cfg, request) && FreshDraw(w.ledger, d)
    requires CodesOk(w.ledger, w.process.codes) && request.code.value in w.process.codes
    requires var record := w.process.codes[request.code.value]; CodeMatches(env.cfg, record, client, request, now) && record.scopes.IsValid()
    requires Inv(env, Burn(w, request.code.value))
    requires forall t | t in Outstanding(w) && t.Redeem? :: t.code != request.code.value
    requires forall f | f in w.ledger.families :: w.ledger.families[f].code != request.code.value
    ensures Inv(env, Admit(Burn(w, request.code.value),
                           RedeemTicket(env.cfg, w.process.codes[request.code.value], client, request, d, issuedAt, accessAt), d))
  {
    var burnt := Burn(w, request.code.value);
    var record := w.process.codes[request.code.value];
    RedeemTicketOk(env.cfg, burnt.ledger, record, client, request, d, now, issuedAt, accessAt);
    assert Outstanding(burnt) == Outstanding(w);
    AdmitInv(env, burnt, RedeemTicket(env.cfg, record, client, request, d, issuedAt, accessAt), d);
  }

  /** The ticket an accepted refresh is admitted with. */
  ghost function RefreshTicket(cfg: Config, presented: RefreshClaims, client: Client, scopes: ScopeGrant, d: Draw, now: nat, accessAt: nat): (r: Ticket) {
    OAuthSystem.Refresh(TokenPair(AccessFor(cfg, scopes, presented.familyId, d.accessId, accessAt),
                                  RefreshFor(cfg, scopes, client, presented.familyId, d.tokenId, now)), presented)
  }

  lemma RefreshTicketOk(cfg: Config, l: Ledger, presented: RefreshClaims, client: Client, request: TokenRequest, scopes: ScopeGrant, d: Draw,
                        now: nat, accessAt: nat)
    requires Placed(l, presented) && FreshDraw(l, d) && (forall t | t in l.places :: t in l.drawn)
    requires CheckRefresh(cfg, presented, client, request, now) == Success(scopes)
    ensures TicketOk(cfg, Drawn(l, d), RefreshTicket(cfg, presented, client, scopes, d, now, accessAt))
  {
  }

  lemma BeginRefreshInv(env: Env, w: World, client: Client, request: TokenRequest, d: Draw, now: nat, accessAt: nat)
    requires Inv(env, w) && w.process.Up? && FreshDraw(w.ledger, d) && request.refreshToken.Some?
    requires exists p | p in w.ledger.returned :: p.refresh == request.refreshToken.value
    ensures Inv(env, DoBeginRefresh(env, w, client, request, d, now, accessAt))
  {
    var presented := request.refreshToken.value;
    match CheckRefresh(env.cfg, presented, client, request, now)
    case Failure(_) =>
    case Success(scopes) =>
      RefreshTicketOk(env.cfg, w.ledger, presented, client, request, scopes, d, now, accessAt);
      AdmitInv(env, w, RefreshTicket(env.cfg, presented, client, scopes, d, now, accessAt), d);
  }

  /** What the store had to find for a request to succeed, and what it then stores. */
  lemma PlanDone(s: State, r: Request)
    requires PlanFor(s, r).reply == Done
    ensures PlanFor(s, r).write
    ensures r.Rotate? ==> r.familyId in s.families && !s.families[r.familyId].revoked
                          && s.families[r.familyId].activeTokenHash == r.presented
    ensures PlanFor(s, r).next.families ==
            Prune(s.families, r.now)[r.familyId := Family(if r.Create? then r.tokenHash else r.next, r.expiresAt, false)]
  {
  }

  /** A refused request leaves every stored family as it was, dropped, or revoked. */
  lemma PlanRefused(s: State, r: Request, f: string)
    requires PlanFor(s, r).reply != Done && f in PlanFor(s, r).next.families
    ensures f in s.families
    ensures var g := PlanFor(s, r).next.families[f]; g == s.families[f] || g == s.families[f].(revoked := true)
  {
  }

  /** A refresh presents the last link of its family, the very claims that were issued. */
  ghost predicate PresentsLast(l: Ledger, t: Ticket) {
    t.Refresh? ==> t.presented.familyId == t.next.refresh.familyId && IsLast(l, t.presented)
  }

  /** The store accepts a rotation only for the last link. */
  lemma AcceptedIsLast(cfg: Config, l: Ledger, s: State, t: Ticket)
    requires LedgerInv(cfg, l) && StoreInv(l, s) && TicketOk(cfg, l, t)
    requires PlanFor(s, Asks(t)).reply == Done
    ensures PresentsLast(l, t)
  {
    if t.Refresh? {
      PlanDone(s, Asks(t));
      var f := t.next.refresh.familyId;
      assert StoredOk(l, f, s.families[f]) && FamilyOk(cfg, l, f);
      var h := l.families[f];
      assert LinkOk(l, f, |h.links| - 1);
      assert Last(h).tokenId == t.presented.tokenId;
    }
  }

  /** Recording a stored link keeps the histories in order. */
  lemma RecordKeepsFamilies(cfg: Config, l: Ledger, t: Ticket, f: string)
    requires LedgerInv(cfg, l) && TicketOk(cfg, l, t) && PresentsLast(l, t)
    requires f in Record(l, t).families
    ensures FamilyOk(cfg, Record(l, t), f)
  {
    var m := Record(l, t);
    if f in l.families { assert FamilyOk(cfg, l, f); }
    forall i: nat | i < |m.families[f].links| ensures LinkOk(m, f, i) {
      if f in l.families && i < |l.families[f].links| {
        assert LinkOk(l, f, i);
        RecordKeepsLink(cfg, l, t, f, i);
      } else {
        RecordedLinkOk(cfg, l, t, f, i);
      }
    }
  }

  lemma RecordKeepsLink(cfg: Config, l: Ledger, t: Ticket, f: string, i: nat)
    requires TicketOk(cfg, l, t) && PresentsLast(l, t)
    requires f in l.families && i < |l.families[f].links| && LinkOk(l, f, i)
    ensures i < |Record(l, t).families[f].links| && LinkOk(Record(l, t), f, i)
  {
  }

  lemma RecordedLinkOk(cfg: Config, l: Ledger, t: Ticket, f: string, i: nat)
    requires TicketOk(cfg, l, t) && PresentsLast(l, t) && (f in l.families ==> FamilyOk(cfg, l, f))
    requires f in Record(l, t).families && i < |Record(l, t).families[f].links| && (f in l.families ==> i >= |l.families[f].links|)
    ensures LinkOk(Record(l, t), f, i)
  {
    if t.Refresh? { assert LinkOk(l, f, |l.families[f].links| - 1); }
  }

  lemma RecordKeepsPlaces(cfg: Config, l: Ledger, t: Ticket, claims: RefreshClaims)
    requires LedgerInv(cfg, l) && TicketOk(cfg, l, t) && Placed(l, claims)
    ensures Placed(Record(l, t), claims)
  {
  }

  lemma RecordKeepsTickets(cfg: Config, l: Ledger, t: Ticket, u: Ticket)
    requires LedgerInv(cfg, l) && TicketOk(cfg, l, t) && TicketOk(cfg, l, u) && Apart(t, u) && t != u
    ensures TicketOk(cfg, Record(l, t), u)
  {
    if u.Refresh? { RecordKeepsPlaces(cfg, l, t, u.presented); }
  }

  lemma RecordKeepsLedger(cfg: Config, l: Ledger, t: Ticket)
    requires LedgerInv(cfg, l) && TicketOk(cfg, l, t) && PresentsLast(l, t)
    ensures LedgerInv(cfg, Record(l, t))
    ensures Placed(Record(l, t), t.next.refresh) && IsLast(Record(l, t), t.next.refresh)
  {
    RecordedIsLast(cfg, l, t);
    RecordKeepsHistories(cfg, l, t);
    RecordKeepsCodesApart(cfg, l, t);
    RecordKeepsApprovals(cfg, l, t);
  }

  lemma RecordedIsLast(cfg: Config, l: Ledger, t: Ticket)
    requires TicketOk(cfg, l, t) && PresentsLast(l, t)
    ensures Placed(Record(l, t), t.next.refresh) && IsLast(Record(l, t), t.next.refresh)
  {
  }

  lemma RecordKeepsHistories(cfg: Config, l: Ledger, t: Ticket)
    requires LedgerInv(cfg, l) && TicketOk(cfg, l, t) && PresentsLast(l, t)
    ensures forall f | f in Record(l, t).families :: FamilyOk(cfg, Record(l, t), f)
    ensures forall p | p in Record(l, t).returned :: PairOk(p) && Placed(Record(l, t), p.refresh)
    ensures forall id | id in Record(l, t).places :: id in Record(l, t).drawn
  {
    var m := Record(l, t);
    forall f | f in m.families ensures FamilyOk(cfg, m, f) {
      RecordKeepsFamilies(cfg, l, t, f);
    }
    forall p | p in m.returned ensures PairOk(p) && Placed(m, p.refresh) {
      RecordKeepsPlaces(cfg, l, t, p.refresh);
    }
  }

  lemma RecordKeepsApprovals(cfg: Config, l: Ledger, t: Ticket)
    requires LedgerInv(cfg, l)
    ensures forall r | r in Record(l, t).approvalRequests :: RequestOk(Record(l, t), r)
    ensures forall c | c in Record(l, t).approved :: ApprovalOk(Record(l, t), Record(l, t).approved[c])
  {
    forall c | c in l.approved ensures ApprovalOk(Record(l, t), l.approved[c]) {
      assert ApprovalOk(l, l.approved[c]);
    }
  }

  lemma RecordKeepsCodesApart(cfg: Config, l: Ledger, t: Ticket)
    requires OneFamilyPerCode(l) && TicketOk(cfg, l, t) && PresentsLast(l, t)
    ensures OneFamilyPerCode(Record(l, t))
  {
  }

  lemma RenameStore(env: Env, w: World)
    requires Inv(env, w) && LockAt(w, {Written})
    requires w.process.lock.plan.reply == Done ==> PresentsLast(w.ledger, w.process.lock.ticket)
    ensures StoreInv(DoRename(w).ledger, w.process.lock.plan.next)
  {
    var t, plan := w.process.lock.ticket, w.process.lock.plan;
    var s := w.process.memory;
    var m := DoRename(w).ledger;
    assert t in Outstanding(w) && TicketOk(env.cfg, w.ledger, t);
    if plan.reply == Done { PlanDone(s, Asks(t)); }
    forall f | f in plan.next.families ensures StoredOk(m, f, plan.next.families[f]) {
      if plan.reply != Done {
        PlanRefused(s, Asks(t), f);
        assert StoredOk(w.ledger, f, s.families[f]);
      } else if f != t.next.refresh.familyId {
        assert StoredOk(w.ledger, f, s.families[f]);
      }
    }
  }

  lemma RenameProcess(env: Env, w: World)
    requires LedgerInv(env.cfg, w.ledger) && ProcessInv(env.cfg, w) && LockAt(w, {Written})
    requires w.process.lock.plan.reply == Done ==> PresentsLast(w.ledger, w.process.lock.ticket)
    ensures LedgerInv(env.cfg, DoRename(w).ledger) && ProcessInv(env.cfg, DoRename(w))
  {
    var v := DoRename(w);
    var t := w.process.lock.ticket;
    assert t in Outstanding(w) && TicketOk(env.cfg, w.ledger, t);
    assert Outstanding(v) == Outstanding(w) - {t};
    if w.process.lock.plan.reply == Done {
      RecordKeepsLedger(env.cfg, w.ledger, t);
      forall u | u in Outstanding(v) ensures TicketOk(env.cfg, v.ledger, u) {
        RecordKeepsTickets(env.cfg, w.ledger, t, u);
      }
    }
  }

  lemma RenameStorage(env: Env, w: World)
    requires StorageInv(env, w) && LockAt(w, {Written})
    ensures StorageInv(env, DoRename(w)) && Durable(env, DoRename(w)) == w.process.lock.plan.next
  {
  }

  /** What the lock holder is known to be while its operation has not happened. */
  lemma HolderOk(env: Env, w: World)
    requires Inv(env, w) && LockAt(w, {Opening, Writing, Written})
    ensures TicketOk(env.cfg, w.ledger, w.process.lock.ticket)
    ensures w.process.lock.plan == PlanFor(w.process.memory, Asks(w.process.lock.ticket))
    ensures w.process.lock.plan.reply == Done ==> PresentsLast(w.ledger, w.process.lock.ticket)
  {
    var t := w.process.lock.ticket;
    assert t in Outstanding(w);
    if w.process.lock.plan.reply == Done {
      AcceptedIsLast(env.cfg, w.ledger, w.process.memory, t);
    }
  }

  lemma RenameInv(env: Env, w: World)
    requires Inv(env, w) && LockAt(w, {Written})
    ensures Inv(env, DoRename(w))
  {
    HolderOk(env, w);
    RenameStore(env, w);
    RenameProcess(env, w);
    RenameStorage(env, w);
  }

  /** Every step keeps the invariant. */
  lemma StepInv(env: Env, w: World, a: Action)
    requires Inv(env, w) && Enabled(env, w, a)
    ensures Inv(env, Step(env, w, a))
  {
    match a
    case RegisterClient(_, _, _, _) => RegisterInv(env, w, a);
    case RequestApproval(_, _, _) => RegisterInv(env, w, a);
    case Approve(form, code, now, issuedAt, prunedAt) => ApproveInv(env, w, form, code, now, issuedAt, prunedAt);
    case ExchangeCode(client, request, draws, now, issuedAt, accessAt) =>
      ExchangeCodeInv(env, w, client, request, draws, now, issuedAt, accessAt);
    case BeginRefresh(client, request, draw, now, accessAt) => BeginRefreshInv(env, w, client, request, draw, now, accessAt);
    case TakeLock(t) => TakeLockInv(env, w, t);
    case Rename => RenameInv(env, w);
    case Commit => CommitInv(env, w);
    case Crash => CrashInv(env, w);
    case Restart => RestartInv(env, w);
    case _ => LockStepInv(env, w, a);
  }

  /** Every state of every run satisfies the invariant. */
  lemma {:induction false} RunInv(env: Env, states: seq<World>, actions: seq<Action>, i: nat)
    requires env.codec.RoundTrips() && IsRun(env, states, actions) && i < |states|
    ensures Inv(env, states[i])
  {
    if i == 0 {
      InitInv(env);
    } else {
      RunInv(env, states, actions, i - 1);
      assert Goes(env, states, actions, i - 1);
      StepInv(env, states[i - 1], actions[i - 1]);
    }
  }
}
