/** What holds over every run of the authorization server. */
module OAuthTheorems {
  import opened Common
  import opened ScopeGrants
  import opened RefreshStore
  import opened OAuthProtocol
  import opened OAuthSystem
  import opened OAuthInvariant

  // ---- History is only added to ----

  ghost predicate Continues(h: History, g: History) {
    g.code == h.code && g.verifier == h.verifier && h.links <= g.links
  }

  ghost predicate Grows(l: Ledger, m: Ledger) {
    && l.drawn <= m.drawn && l.burned <= m.burned && l.returned <= m.returned
    && (forall c | c in l.approved :: c in m.approved && m.approved[c] == l.approved[c])
    && (forall f | f in l.families :: f in m.families && Continues(l.families[f], m.families[f]))
    && (forall t | t in l.places :: t in m.places && m.places[t] == l.places[t])
  }

  lemma RecordGrows(cfg: Config, l: Ledger, t: Ticket)
    requires TicketOk(cfg, l, t)
    ensures Grows(l, Record(l, t))
  {
  }

  lemma ApproveGrows(env: Env, w: World, form: ApprovalForm, code: string, now: nat, issuedAt: nat, prunedAt: nat)
    requires w.process.Up? && code !in w.ledger.approved
    ensures Grows(w.ledger, DoApprove(env, w, form, code, now, issuedAt, prunedAt).ledger)
  {
  }

  lemma StepGrows(env: Env, w: World, a: Action)
    requires Inv(env, w) && Enabled(env, w, a)
    ensures Grows(w.ledger, Step(env, w, a).ledger)
  {
    match a
    case Rename =>
      HolderOk(env, w);
      RenameGrows(env, w);
    case Approve(form, code, now, issuedAt, prunedAt) => ApproveGrows(env, w, form, code, now, issuedAt, prunedAt);
    case ExchangeCode(client, request, draws, now, issuedAt, accessAt) =>
      ExchangeGrows(env, w, client, request, draws, now, issuedAt, accessAt);
    case BeginRefresh(client, request, draw, now, accessAt) => RefreshGrows(env, w, client, request, draw, now, accessAt);
    case _ => OtherStepsGrow(env, w, a);
  }

  lemma ExchangeGrows(env: Env, w: World, client: Client, request: TokenRequest, draws: Option<Draw>, now: nat, issuedAt: nat, accessAt: nat)
    requires w.process.Up? && CodeRequestWellFormed(env.cfg, request)
    ensures Grows(w.ledger, DoExchangeCode(env, w, client, request, draws, now, issuedAt, accessAt).ledger)
  {
    var code := request.code.value;
    if code in w.process.codes {
      var record := w.process.codes[code];
      if CodeMatches(env.cfg, record, client, request, now) && draws.Some? && record.scopes.IsValid() {
        AdmitGrows(Burn(w, code), RedeemTicket(env.cfg, record, client, request, draws.value, issuedAt, accessAt), draws.value);
      }
    }
  }

  lemma AdmitGrows(w: World, t: Ticket, d: Draw)
    requires w.process.Up?
    ensures Grows(w.ledger, Admit(w, t, d).ledger)
  {
  }

  lemma RefreshGrows(env: Env, w: World, client: Client, request: TokenRequest, d: Draw, now: nat, accessAt: nat)
    requires w.process.Up? && request.refreshToken.Some?
    ensures Grows(w.ledger, DoBeginRefresh(env, w, client, request, d, now, accessAt).ledger)
  {
  }

  lemma RenameGrows(env: Env, w: World)
    requires LockAt(w, {Written}) && TicketOk(env.cfg, w.ledger, w.process.lock.ticket)
    ensures Grows(w.ledger, DoRename(w).ledger)
  {
    RecordGrows(env.cfg, w.ledger, w.process.lock.ticket);
  }

  lemma OtherStepsGrow(env: Env, w: World, a: Action)
    requires Enabled(env, w, a) && a != Rename && !a.Approve? && !a.ExchangeCode? && !a.BeginRefresh?
    ensures Grows(w.ledger, Step(env, w, a).ledger)
  {
  }

  lemma GrowsTransitively(l: Ledger, m: Ledger, n: Ledger)
    requires Grows(l, m) && Grows(m, n)
    ensures Grows(l, n)
  {
    forall f | f in l.families ensures f in n.families && Continues(l.families[f], n.families[f]) {
      assert Continues(l.families[f], m.families[f]) && Continues(m.families[f], n.families[f]);
    }
  }

  lemma {:induction false} RunGrows(env: Env, states: seq<World>, actions: seq<Action>, i: nat, j: nat)
    requires env.codec.RoundTrips() && IsRun(env, states, actions) && i <= j < |states|
    ensures Grows(states[i].ledger, states[j].ledger)
    decreases j - i
  {
    if i < j {
      RunInv(env, states, actions, i);
      assert Goes(env, states, actions, i);
      StepGrows(env, states[i], actions[i]);
      RunGrows(env, states, actions, i + 1, j);
      GrowsTransitively(states[i].ledger, states[i + 1].ledger, states[j].ledger);
    }
  }

  // ---- Each refresh token is redeemed at most once ----

  /** The token has been replaced by a later one of its family. */
  ghost predicate Superseded(l: Ledger, token: RefreshClaims) {
    && token.tokenId in l.places
    && var (f, k) := l.places[token.tokenId];
    f in l.families && k + 1 < |l.families[f].links|
  }

  lemma SupersededStays(l: Ledger, m: Ledger, token: RefreshClaims)
    requires Superseded(l, token) && Grows(l, m)
    ensures Superseded(m, token)
  {
    var f := l.places[token.tokenId].0;
    assert Continues(l.families[f], m.families[f]);
  }

  /** Recording the successor of the last link supersedes it. */
  lemma RecordSupersedes(cfg: Config, l: Ledger, t: Ticket)
    requires TicketOk(cfg, l, t) && t.Refresh? && PresentsLast(l, t)
    requires FamilyOk(cfg, l, t.presented.familyId)
    ensures !Superseded(l, t.presented) && Superseded(Record(l, t), t.presented)
  {
    assert LinkOk(l, t.presented.familyId, |l.families[t.presented.familyId].links| - 1);
  }

  /** A redemption takes the last link of the family and leaves it superseded. */
  lemma RedeemingSupersedes(env: Env, w: World, a: Action, token: RefreshClaims)
    requires Inv(env, w) && Redeems(w, a, token)
    ensures IsLast(w.ledger, token) && !Superseded(w.ledger, token)
    ensures Superseded(DoRename(w).ledger, token)
  {
    HolderOk(env, w);
    RecordSupersedes(env.cfg, w.ledger, w.process.lock.ticket);
  }

  lemma RenameIsStep(env: Env, w: World, a: Action)
    requires Enabled(env, w, a) && a == Rename
    ensures Step(env, w, a) == DoRename(w)
  {
  }

  lemma RunRedeems(env: Env, states: seq<World>, actions: seq<Action>, i: nat, token: RefreshClaims)
    requires env.codec.RoundTrips() && IsRun(env, states, actions) && i < |actions| && Redeems(states[i], actions[i], token)
    ensures !Superseded(states[i].ledger, token) && Superseded(states[i + 1].ledger, token)
  {
    RunInv(env, states, actions, i);
    assert Goes(env, states, actions, i);
    RenameIsStep(env, states[i], actions[i]);
    RedeemingSupersedes(env, states[i], actions[i], token);
  }

  /**
    Over every run, with requests overlapping, writes failing, crashes and restarts anywhere and any clock,
    no refresh-token id is redeemed twice.
   */
  lemma RefreshTokenRedeemedAtMostOnce(env: Env, states: seq<World>, actions: seq<Action>, i: nat, j: nat,
                                       first: RefreshClaims, second: RefreshClaims)
    requires env.codec.RoundTrips() && IsRun(env, states, actions) && i < j < |actions|
    requires Redeems(states[i], actions[i], first) && Redeems(states[j], actions[j], second)
    ensures first.tokenId != second.tokenId
  {
    RunRedeems(env, states, actions, i, first);
    RunGrows(env, states, actions, i + 1, j);
    SupersededStays(states[i + 1].ledger, states[j].ledger, first);
    RunRedeems(env, states, actions, j, second);
  }

  /**
    In every reachable state a live family accepts exactly the token most recently rotated in, and the
    expiry the store keeps for it is the one that token claims.
   */
  lemma LiveFamilyAcceptsExactlyItsLastToken(env: Env, states: seq<World>, actions: seq<Action>, i: nat,
                                             f: string, tokenId: string, next: TokenHash, expiresAt: nat, now: nat)
    requires env.codec.RoundTrips() && IsRun(env, states, actions) && i < |states|
    requires states[i].process.Up? && states[i].process.lock.Free? && IsActive(states[i].process.memory, f, now)
    ensures var w := states[i];
            && f in w.ledger.families && w.ledger.families[f].links != []
            && w.process.memory.families[f].expiresAt == Last(w.ledger.families[f]).expiresAt
            && (PlanFor(w.process.memory, Request.Rotate(f, TokenHash(tokenId), next, expiresAt, now)).reply == Done
                <==> tokenId == Last(w.ledger.families[f]).tokenId)
  {
    RunInv(env, states, actions, i);
    assert StoredOk(states[i].ledger, f, states[i].process.memory.families[f]);
    ActiveAcceptsLast(states[i].ledger, states[i].process.memory, f, tokenId, next, expiresAt, now);
  }

  lemma ActiveAcceptsLast(l: Ledger, s: State, f: string, tokenId: string, next: TokenHash, expiresAt: nat, now: nat)
    requires IsActive(s, f, now) && StoredOk(l, f, s.families[f])
    ensures PlanFor(s, Request.Rotate(f, TokenHash(tokenId), next, expiresAt, now)).reply == Done
            <==> tokenId == Last(l.families[f]).tokenId
  {
  }

  // ---- Replay revokes for good ----

  /** The family was created and is no longer stored as live. */
  ghost predicate Dead(env: Env, w: World, f: string) {
    && f in w.ledger.families
    && (f !in Durable(env, w).families || Durable(env, w).families[f].revoked)
  }

  /** A dead family is neither created again nor rotated. */
  lemma PlanKeepsDead(cfg: Config, l: Ledger, s: State, t: Ticket, f: string)
    requires TicketOk(cfg, l, t) && f in l.families
    requires f !in s.families || s.families[f].revoked
    ensures var next := PlanFor(s, Asks(t)).next; f !in next.families || next.families[f].revoked
    ensures PlanFor(s, Asks(t)).reply == Done ==> t.next.refresh.familyId != f
  {
  }

  lemma RenameKeepsDead(env: Env, w: World, f: string)
    requires Inv(env, w) && LockAt(w, {Written}) && Dead(env, w, f)
    ensures Dead(env, DoRename(w), f)
    ensures w.process.lock.plan.reply == Done ==> w.process.lock.ticket.next.refresh.familyId != f
  {
    HolderOk(env, w);
    PlanKeepsDead(env.cfg, w.ledger, w.process.memory, w.process.lock.ticket, f);
  }

  lemma DeadStays(env: Env, w: World, a: Action, f: string)
    requires Inv(env, w) && Enabled(env, w, a) && Dead(env, w, f)
    ensures Dead(env, Step(env, w, a), f)
  {
    match a
    case Rename => RenameKeepsDead(env, w, f);
    case Crash => CrashInv(env, w);
    case Restart => RestartInv(env, w);
    case _ => DurableUnchanged(env, w, a);
  }

  /** Only the rename changes what is stored. */
  lemma DurableUnchanged(env: Env, w: World, a: Action)
    requires Enabled(env, w, a) && a != Rename && a != Crash && a != Restart
    ensures Durable(env, Step(env, w, a)) == Durable(env, w)
    ensures Step(env, w, a).ledger.families == w.ledger.families
  {
  }

  lemma {:induction false} DeadForGood(env: Env, states: seq<World>, actions: seq<Action>, i: nat, j: nat, f: string)
    requires env.codec.RoundTrips() && IsRun(env, states, actions) && i <= j < |states|
    requires Dead(env, states[i], f)
    ensures Dead(env, states[j], f)
    decreases j - i
  {
    if i < j {
      RunInv(env, states, actions, i);
      assert Goes(env, states, actions, i);
      DeadStays(env, states[i], actions[i], f);
      DeadForGood(env, states, actions, i + 1, j, f);
    }
  }

  /** No refresh token of a dead family rotates and no access token of it authenticates. */
  lemma DeadFamilyIsUseless(env: Env, w: World, a: Action, f: string)
    requires Inv(env, w) && Enabled(env, w, a) && Dead(env, w, f)
    ensures forall token :: Redeems(w, a, token) ==> token.familyId != f
    ensures forall claims :: Accepts(env, w, a, claims) ==> claims.familyId != f
  {
    forall token | Redeems(w, a, token) ensures token.familyId != f {
      HolderOk(env, w);
      RenameKeepsDead(env, w, f);
    }
  }

  /** A rotation asked for with a superseded token leaves the family dead as soon as anything is stored. */
  lemma ReplayKills(env: Env, w: World)
    requires Inv(env, w) && LockAt(w, {Written})
    requires w.process.lock.ticket.Refresh? && Superseded(w.ledger, w.process.lock.ticket.presented)
    ensures w.process.lock.plan.reply == Refused(InvalidGrant)
    ensures Dead(env, DoRename(w), w.process.lock.ticket.presented.familyId)
  {
    HolderOk(env, w);
    if w.process.lock.plan.reply == Done {
      RedeemingSupersedes(env, w, Rename, w.process.lock.ticket.presented);
    }
  }

  /** When such a request finds nothing to write, the family was dead already. */
  lemma UnwrittenReplayFoundItDead(env: Env, w: World, t: Ticket)
    requires Inv(env, w) && Enabled(env, w, TakeLock(t))
    requires t.Refresh? && Superseded(w.ledger, t.presented) && DoTakeLock(w, t).process.lock.Free?
    ensures Dead(env, w, t.presented.familyId)
  {
    assert t in Outstanding(w) && TicketOk(env.cfg, w.ledger, t);
  }

  lemma RunKills(env: Env, states: seq<World>, actions: seq<Action>, i: nat)
    requires env.codec.RoundTrips() && IsRun(env, states, actions) && i < |actions|
    requires actions[i] == Rename && LockAt(states[i], {Written}) && states[i].process.lock.ticket.Refresh?
    requires Superseded(states[i].ledger, states[i].process.lock.ticket.presented)
    ensures Dead(env, states[i + 1], states[i].process.lock.ticket.presented.familyId)
  {
    RunInv(env, states, actions, i);
    assert Goes(env, states, actions, i);
    RenameIsStep(env, states[i], actions[i]);
    ReplayKills(env, states[i]);
  }

  /**
    Once a superseded token has passed the checks and the store has written its answer, then in every
    continuation no refresh token of the family is redeemed and no access token of it authenticates.
   */
  lemma ReplayRevokesForGood(env: Env, states: seq<World>, actions: seq<Action>, i: nat, j: nat)
    requires env.codec.RoundTrips() && IsRun(env, states, actions) && i < j < |actions|
    requires actions[i] == Rename && LockAt(states[i], {Written}) && states[i].process.lock.ticket.Refresh?
    requires Superseded(states[i].ledger, states[i].process.lock.ticket.presented)
    ensures var f := states[i].process.lock.ticket.presented.familyId;
            && (forall token :: Redeems(states[j], actions[j], token) ==> token.familyId != f)
            && (forall claims :: Accepts(env, states[j], actions[j], claims) ==> claims.familyId != f)
  {
    var f := states[i].process.lock.ticket.presented.familyId;
    RunKills(env, states, actions, i);
    DeadForGood(env, states, actions, i + 1, j, f);
    RunInv(env, states, actions, j);
    assert Goes(env, states, actions, j);
    DeadFamilyIsUseless(env, states[j], actions[j], f);
  }

  // ---- Crash consistency ----

  /**
    In every reachable state the file loads, if what it stores fits, as the state before the operation in
    flight until its rename and as the state after it from then on; with no operation in flight that is memory.
    If what it stores does not fit, the server does not start again.
   */
  lemma CrashConsistency(env: Env, states: seq<World>, actions: seq<Action>, i: nat)
    requires env.codec.RoundTrips() && IsRun(env, states, actions) && i < |states| && states[i].process.Up?
    ensures var w := states[i];
            var expected := if LockAt(w, {Renamed}) then w.process.lock.plan.next else w.process.memory;
            && (Load(env.codec, w.disk) == Success(expected) <==> w.disk.final == None || Fits(env.codec, expected))
            && (Load(env.codec, w.disk) != Success(expected) ==> Load(env.codec, w.disk).Failure?)
  {
    RunInv(env, states, actions, i);
    LoadsExactlyWhatFits(env.codec, states[i].disk, Durable(env, states[i]));
  }

  /** Crash and restart from any reachable state: the new process has the state before or after, nothing in between. */
  lemma RestartResumes(env: Env, states: seq<World>, actions: seq<Action>, i: nat)
    requires env.codec.RoundTrips() && IsRun(env, states, actions) && i + 2 < |states|
    requires states[i].process.Up? && actions[i] == Crash && actions[i + 1] == Restart
    ensures states[i + 2].process.Up? && states[i + 2].process.codes == map[]
    ensures states[i + 2].process.memory ==
            if LockAt(states[i], {Renamed}) then states[i].process.lock.plan.next else states[i].process.memory
  {
    RunInv(env, states, actions, i);
    assert Goes(env, states, actions, i) && Goes(env, states, actions, i + 1);
    CrashInv(env, states[i]);
    RunInv(env, states, actions, i + 1);
    RestartInv(env, states[i + 1]);
  }

  /** While the lock stays held, memory stays, and so does the state file until the rename. */
  lemma HeldStep(env: Env, w: World, a: Action)
    requires Enabled(env, w, a) && LockAt(w, {Opening, Writing, Written, Renamed}) && LockAt(Step(env, w, a), {Opening, Writing, Written})
    ensures LockAt(w, {Opening, Writing, Written})
    ensures Step(env, w, a).process.memory == w.process.memory && Step(env, w, a).disk.final == w.disk.final
    ensures Step(env, w, a).ledger.families == w.ledger.families && Step(env, w, a).ledger.returned == w.ledger.returned
  {
  }

  /** What neither a client nor a restart can tell apart. */
  ghost predicate SameStore(env: Env, w: World, v: World) {
    && w.process.Up? && v.process.Up? && v.process.memory == w.process.memory
    && Load(env.codec, v.disk) == Load(env.codec, w.disk)
    && v.ledger.families == w.ledger.families && v.ledger.returned == w.ledger.returned
  }

  ghost predicate HeldFrom(states: seq<World>, i: nat, j: nat) {
    forall m | i <= m <= j && m < |states| :: LockAt(states[m], {Opening, Writing, Written, Renamed})
  }

  lemma {:induction false} HeldUntilFailure(env: Env, states: seq<World>, actions: seq<Action>, i: nat, j: nat)
    requires IsRun(env, states, actions) && i <= j < |actions| && HeldFrom(states, i, j) && LockAt(states[j], {Opening, Writing, Written})
    ensures LockAt(states[i], {Opening, Writing, Written}) && SameStore(env, states[i], states[j])
    decreases j - i
  {
    if i < j {
      HeldUntilFailure(env, states, actions, i + 1, j);
      assert Goes(env, states, actions, i);
      HeldStep(env, states[i], actions[i]);
    }
  }

  /**
    An operation whose persist fails leaves no trace: from the state in which it took the lock at step `i` to the
    one after it gives up at step `j`, however far its writes to the temporary file came and whatever other
    requests did meanwhile, memory, what the state file loads as, the families and the tokens returned are the same.
   */
  lemma FailedPersistChangesNothing(env: Env, states: seq<World>, actions: seq<Action>, i: nat, j: nat)
    requires IsRun(env, states, actions) && i < j < |actions|
    requires actions[i].TakeLock? && HeldFrom(states, i + 1, j) && actions[j] == FailPersist
    ensures SameStore(env, states[i], states[j + 1])
  {
    assert Goes(env, states, actions, i) && Goes(env, states, actions, j);
    HeldUntilFailure(env, states, actions, i + 1, j);
  }

  // ---- The step system and the store's methods ----

  /** The steps of a successful persist, taken in a row. */
  function Persisted(env: Env, w: World): (r: World)
    requires LockAt(w, {Opening})
  {
    var begun := Step(env, w, OpenTemp);
    var written := Step(env, begun, FinishWrite);
    var renamed := Step(env, written, Rename);
    Step(env, renamed, Commit)
  }

  lemma PersistedState(env: Env, w: World)
    requires LockAt(w, {Opening})
    ensures var plan := w.process.lock.plan;
            && Persisted(env, w).process.Up? && Persisted(env, w).process.lock.Free? && Persisted(env, w).process.memory == plan.next
            && Persisted(env, w).disk.final == Some(env.codec.encode(plan.next))
            && Step(env, w, FailPersist).process.Up? && Step(env, w, FailPersist).process.memory == w.process.memory
            && Step(env, w, FailPersist).disk.final == w.disk.final
  {
  }

  /**
    Taken without interruption, the steps of an operation do to memory and state file what the methods of
    `RefreshTokenStore` are specified to do: the plan is settled, and what it writes is on disk.
   */
  lemma UninterruptedIsSettle(env: Env, w: World, t: Ticket)
    requires Enabled(env, w, TakeLock(t))
    ensures var plan := PlanFor(w.process.memory, Asks(t));
            var taken := Step(env, w, TakeLock(t));
            && (plan.write <==> LockAt(taken, {Opening}))
            && (!plan.write ==> taken.process.memory == Settle(w.process.memory, plan, true) && taken.disk == w.disk)
            && (plan.write ==>
                  && Persisted(env, taken).process.memory == Settle(w.process.memory, plan, true)
                  && Persisted(env, taken).disk.final == Some(env.codec.encode(plan.next))
                  && Persisted(env, taken).process.lock.Free?
                  && Step(env, taken, FailPersist).process.memory == Settle(w.process.memory, plan, false)
                  && Step(env, taken, FailPersist).disk.final == w.disk.final)
  {
    var taken := DoTakeLock(w, t);
    assert Step(env, w, TakeLock(t)) == taken;
    if taken.process.lock.Held? { PersistedState(env, taken); }
  }

  // ---- Codes ----

  /** Any attempt that finds the code burns it: no later request of the run finds it again. */
  lemma CodeIsFoundAtMostOnce(env: Env, states: seq<World>, actions: seq<Action>, i: nat, j: nat, code: string)
    requires env.codec.RoundTrips() && IsRun(env, states, actions) && i < j < |states|
    requires i < |actions| && states[i].process.Up? && actions[i].ExchangeCode? && actions[i].request.code == Some(code) && code in states[i].process.codes
    requires states[j].process.Up?
    ensures code !in states[j].process.codes
  {
    RunGrows(env, states, actions, i + 1, j);
    RunInv(env, states, actions, j);
    assert Goes(env, states, actions, i);
    assert code in states[i + 1].ledger.burned;
  }

  /** Each code creates at most one family. */
  lemma CodeFoundsAtMostOneFamily(env: Env, states: seq<World>, actions: seq<Action>, i: nat, j: nat, first: string, second: string)
    requires env.codec.RoundTrips() && IsRun(env, states, actions) && i < j < |actions|
    requires Founds(states[i], actions[i], first) && Founds(states[j], actions[j], second)
    ensures first != second
  {
    var f := states[i].process.lock.ticket.next.refresh.familyId;
    assert Goes(env, states, actions, i);
    RenameIsStep(env, states[i], actions[i]);
    assert f in states[i + 1].ledger.families && states[i + 1].ledger.families[f].code == first;
    RunGrows(env, states, actions, i + 1, j);
    assert Continues(states[i + 1].ledger.families[f], states[j].ledger.families[f]);
    RunInv(env, states, actions, j);
    var u := states[j].process.lock.ticket;
    assert u in Outstanding(states[j]) && TicketOk(env.cfg, states[j].ledger, u);
  }

  // ---- Scope ----

  /** Along a family every link covers all later ones. */
  lemma {:induction false} ChainNarrows(cfg: Config, l: Ledger, f: string, j: nat, k: nat)
    requires f in l.families && FamilyOk(cfg, l, f) && j <= k < |l.families[f].links|
    ensures l.families[f].links[j].scopes.Allows(l.families[f].links[k].scopes)
    decreases k
  {
    if j < k {
      ChainNarrows(cfg, l, f, j, k - 1);
      assert LinkOk(l, f, k);
      AllowsIsTransitive(l.families[f].links[j].scopes, l.families[f].links[k - 1].scopes, l.families[f].links[k].scopes);
    }
  }

  /** A redemption appends the tokens it was admitted with to the history. */
  lemma RedeemingAppends(env: Env, w: World, a: Action, token: RefreshClaims)
    requires Inv(env, w) && Redeems(w, a, token)
    ensures var next := w.process.lock.ticket.next.refresh;
            && token.familyId == next.familyId && IsLast(DoRename(w).ledger, next)
  {
    HolderOk(env, w);
  }

  /** What a commit returns is the end of the history it belongs to. */
  lemma CommitReturnsLast(env: Env, w: World)
    requires Inv(env, w) && LockAt(w, {Renamed}) && w.process.lock.plan.reply == Done
    ensures PairOk(w.process.lock.ticket.next) && IsLast(w.ledger, w.process.lock.ticket.next.refresh)
  {
  }

  lemma LaterLinksNarrow(cfg: Config, l: Ledger, m: Ledger, early: RefreshClaims, late: RefreshClaims)
    requires early.familyId in m.families && FamilyOk(cfg, m, early.familyId)
    requires early.familyId in l.families && Continues(l.families[early.familyId], m.families[early.familyId])
    requires IsLast(l, early) && IsLast(m, late) && early.familyId == late.familyId
    ensures early.scopes.Allows(late.scopes)
  {
    var f := early.familyId;
    ChainNarrows(cfg, m, f, |l.families[f].links| - 1, |m.families[f].links| - 1);
  }

  lemma RunAppends(env: Env, states: seq<World>, actions: seq<Action>, i: nat, token: RefreshClaims)
    requires env.codec.RoundTrips() && IsRun(env, states, actions) && i < |actions| && Redeems(states[i], actions[i], token)
    ensures var next := states[i].process.lock.ticket.next.refresh;
            && token.familyId == next.familyId && IsLast(states[i + 1].ledger, next)
  {
    RunInv(env, states, actions, i);
    assert Goes(env, states, actions, i);
    RenameIsStep(env, states[i], actions[i]);
    RedeemingAppends(env, states[i], actions[i], token);
  }

  lemma RunReturns(env: Env, states: seq<World>, actions: seq<Action>, j: nat)
    requires env.codec.RoundTrips() && IsRun(env, states, actions) && j < |actions|
    requires actions[j] == Commit && LockAt(states[j], {Renamed}) && states[j].process.lock.plan.reply == Done
    ensures LedgerInv(env.cfg, states[j].ledger)
    ensures PairOk(states[j].process.lock.ticket.next) && IsLast(states[j].ledger, states[j].process.lock.ticket.next.refresh)
  {
    RunInv(env, states, actions, j);
    assert Goes(env, states, actions, j);
    CommitReturnsLast(env, states[j]);
  }

  /**
    After one refresh that narrows a family to `kb:tech`, no token pair returned later for that family is
    Private.
   */
  lemma NarrowingIsForGood(env: Env, states: seq<World>, actions: seq<Action>, i: nat, j: nat, token: RefreshClaims)
    requires env.codec.RoundTrips() && IsRun(env, states, actions) && i < j < |actions|
    requires Redeems(states[i], actions[i], token)
    requires states[i].process.lock.ticket.next.refresh.scopes.AccessScope() == Tech
    requires actions[j] == Commit && LockAt(states[j], {Renamed}) && states[j].process.lock.plan.reply == Done
    requires states[j].process.lock.ticket.next.refresh.familyId == token.familyId
    ensures states[j].process.lock.ticket.next.access.scopes.AccessScope() == Tech
    ensures states[j].process.lock.ticket.next.refresh.scopes.AccessScope() == Tech
  {
    var w, v := states[i], states[j];
    RunAppends(env, states, actions, i, token);
    RunGrows(env, states, actions, i + 1, j);
    RunReturns(env, states, actions, j);
    var early, late := w.process.lock.ticket.next.refresh, v.process.lock.ticket.next.refresh;
    LaterLinksNarrow(env.cfg, states[i + 1].ledger, v.ledger, early, late);
    if late.scopes.AccessScope() == Private { PrivateNeedsPrivate(early.scopes, late.scopes); }
  }
}
