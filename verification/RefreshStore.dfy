/** The refresh-token family store (`RefreshTokenStore` in src/oauth.rs). */
module RefreshStore {
  import opened Common

  const REFRESH_STATE_VERSION: nat := 1
  const MAX_REFRESH_STATE_BYTES: nat := 1_048_576

  datatype OAuthError =
    | InvalidConfiguration | InvalidAuthorizationRequest | InvalidClient | InvalidGrant | InvalidScope
    | InvalidTarget | InvalidRequest | InvalidOwner | Entropy | Internal

  /** HMAC of a refresh-token id; the constructor stands for the injective MAC. */
  datatype TokenHash = TokenHash(tokenId: string)

  datatype Family = Family(activeTokenHash: TokenHash, expiresAt: nat, revoked: bool)

  type Families = map<string, Family>

  datatype State = State(version: nat, families: Families)

  const DEFAULT_STATE: State := State(REFRESH_STATE_VERSION, map[])

  // ---- What each operation decides, as a function of the state it finds ----

  datatype Request =
    | Create(familyId: string, tokenHash: TokenHash, expiresAt: nat, now: nat)
    | Rotate(familyId: string, presented: TokenHash, next: TokenHash, expiresAt: nat, now: nat)

  datatype Reply = Done | Refused(error: OAuthError)

  /** The state to write, whether it is written at all, and the reply once it has been. */
  datatype Plan = Plan(next: State, write: bool, reply: Reply)

  function Prune(families: Families, now: nat): (r: Families) {
    map f | f in families && families[f].expiresAt > now :: families[f]
  }

  function PlanFor(state: State, r: Request): (result: Plan) {
    var pruned := Prune(state.families, r.now);
    match r
    case Create(f, hash, expiresAt, _) =>
      if f in pruned then Plan(state, false, Refused(Entropy))
      else Plan(state.(families := pruned[f := Family(hash, expiresAt, false)]), true, Done)
    case Rotate(f, presented, next, expiresAt, _) =>
      if f !in pruned then
        Plan(state.(families := pruned), pruned != state.families, Refused(InvalidGrant))
      else if pruned[f].revoked then
        Plan(state.(families := pruned), pruned != state.families, Refused(InvalidGrant))
      else if pruned[f].activeTokenHash != presented then
        Plan(state.(families := pruned[f := pruned[f].(revoked := true)]), true, Refused(InvalidGrant))
      else
        Plan(state.(families := pruned[f := Family(next, expiresAt, false)]), true, Done)
  }

  /** The family is usable at `now`: present, not revoked, not expired. */
  predicate IsActive(state: State, familyId: string, now: nat) {
    && familyId in state.families
    && !state.families[familyId].revoked
    && state.families[familyId].expiresAt > now
  }

  /** A rotation succeeds exactly for the active token of a family that is stored, unrevoked and unexpired, and replaces it. */
  lemma RotatesExactlyTheActiveToken(state: State, familyId: string, presented: TokenHash, next: TokenHash, expiresAt: nat, now: nat)
    ensures var plan := PlanFor(state, Rotate(familyId, presented, next, expiresAt, now));
            && (plan.reply == Done <==>
                  && familyId in state.families && !state.families[familyId].revoked && now < state.families[familyId].expiresAt
                  && state.families[familyId].activeTokenHash == presented)
            && (plan.reply == Done ==> plan.write && familyId in plan.next.families && plan.next.families[familyId] == Family(next, expiresAt, false))
  {
  }

  /** A creation succeeds exactly when no unexpired family has the identifier. */
  lemma CreatesExactlyFreeFamilies(state: State, familyId: string, hash: TokenHash, expiresAt: nat, now: nat)
    ensures var plan := PlanFor(state, Create(familyId, hash, expiresAt, now));
            && (plan.reply == Done <==> familyId in state.families ==> state.families[familyId].expiresAt <= now)
            && (plan.reply == Done ==> plan.write && familyId in plan.next.families && plan.next.families[familyId] == Family(hash, expiresAt, false))
  {
  }

  /** A family authenticates bearers exactly while some refresh token of it could still be rotated, and that one is its active token. */
  lemma ActiveExactlyWhileRotatable(state: State, familyId: string, now: nat, next: TokenHash, expiresAt: nat)
    ensures IsActive(state, familyId, now) <==>
            exists presented :: PlanFor(state, Rotate(familyId, presented, next, expiresAt, now)).reply == Done
    ensures forall presented :: PlanFor(state, Rotate(familyId, presented, next, expiresAt, now)).reply == Done ==>
              IsActive(state, familyId, now) && presented == state.families[familyId].activeTokenHash
  {
    if IsActive(state, familyId, now) {
      assert PlanFor(state, Rotate(familyId, state.families[familyId].activeTokenHash, next, expiresAt, now)).reply == Done;
    }
  }

  // ---- The state file ----

  /** `serde_json` on the state file. */
  datatype Codec = Codec(encode: State -> Bytes, decode: Bytes -> Option<State>) {
    ghost predicate RoundTrips() {
      forall s :: decode(encode(s)) == Some(s)
    }
  }

  /** The state file and the temporary file beside it. */
  datatype Disk = Disk(final: Option<Bytes>, temp: Option<Bytes>)

  /** `open`: what a starting server reads. */
  function Load(codec: Codec, disk: Disk): (r: Result<State, OAuthError>) {
    match disk.final
    case None => Success(DEFAULT_STATE)
    case Some(contents) =>
      if |contents| > MAX_REFRESH_STATE_BYTES then Failure(InvalidConfiguration)
      else
        match codec.decode(contents)
        case None => Failure(InvalidConfiguration)
        case Some(s) => if s.version != REFRESH_STATE_VERSION then Failure(InvalidConfiguration) else Success(s)
  }

  /** What the store itself leaves on disk: the state file is the one `persist(s)` writes, or there is none and `s` is the default. */
  ghost predicate Stores(codec: Codec, disk: Disk, s: State) {
    s.version == REFRESH_STATE_VERSION &&
    (disk.final == Some(codec.encode(s)) || (disk.final == None && s == DEFAULT_STATE))
  }

  /** The size bound under which a restart can read what was written. */
  predicate Fits(codec: Codec, s: State) {
    |codec.encode(s)| <= 1_048_576
  }

  /**
    A file left by the store loads as exactly the state it stores if and only if that state fits:
    `persist` does not check the limit that `open` enforces.
   */
  lemma LoadsExactlyWhatFits(codec: Codec, disk: Disk, s: State)
    requires codec.RoundTrips() && Stores(codec, disk, s)
    ensures Load(codec, disk) == Success(s) <==> disk.final == None || Fits(codec, s)
    ensures Load(codec, disk) != Success(s) ==> Load(codec, disk) == Failure(InvalidConfiguration)
  {
    assert codec.decode(codec.encode(s)) == Some(s);
  }

  /** Two states cannot be stored by one file. */
  lemma StoredStateIsUnique(codec: Codec, disk: Disk, s: State, t: State)
    requires codec.RoundTrips() && Stores(codec, disk, s) && Stores(codec, disk, t)
    ensures s == t
  {
    assert codec.decode(codec.encode(s)) == Some(s) && codec.decode(codec.encode(t)) == Some(t);
  }

  /** The state file decodes to `s`, whoever wrote it, or there is none and `s` is the default. */
  predicate Holds(codec: Codec, disk: Disk, s: State) {
    && s.version == REFRESH_STATE_VERSION
    && if disk.final.Some? then codec.decode(disk.final.value) == Some(s) else s == DEFAULT_STATE
  }

  /** How the file operations inside one `persist` turn out. */
  datatype Io = Io(open: bool, write: bool, written: nat, sync: bool, rename: bool) {
    predicate AllSucceed() { open && write && sync && rename }
  }

  /** The state after an operation planned as `plan`, given whether its persist succeeded. */
  function Settle(state: State, plan: Plan, persisted: bool): (r: State) {
    if plan.write && persisted then plan.next else state
  }

  function Answer(plan: Plan, persisted: bool): (r: Reply) {
    if plan.write && !persisted then Refused(Internal) else plan.reply
  }

  lemma PruneBySize(families: Families, now: nat)
    ensures |Prune(families, now)| != |families| <==> Prune(families, now) != families
  {
    var pruned := Prune(families, now);
    assert pruned.Keys <= families.Keys;
    if pruned != families {
      assert exists f :: f in families && f !in pruned;
      assert pruned.Keys < families.Keys;
      SubsetSize(pruned.Keys, families.Keys);
    }
  }

  /** The mutex-guarded store: each method body runs with the lock held. */
  class RefreshTokenStore {
    const codec: Codec
    var state: State
    var disk: Disk

    /** Memory is what the state file holds. */
    ghost predicate Valid()
      reads this
    {
      codec.RoundTrips() && Holds(codec, disk, state)
    }

    constructor (codec: Codec, disk: Disk, loaded: State)
      requires codec.RoundTrips() && Holds(codec, disk, loaded)
      ensures Valid() && this.codec == codec && this.disk == disk && state == loaded
    {
      this.codec, this.disk, this.state := codec, disk, loaded;
    }

    method Persist(next: State, io: Io) returns (ok: bool)
      modifies this`disk
      ensures ok == io.AllSucceed()
      ensures disk.final == if ok then Some(codec.encode(next)) else old(disk.final)
    {
      var serialized := codec.encode(next);
      if !io.open { return false; }
      disk := disk.(temp := Some([]));
      if !io.write {
        disk := disk.(temp := Some(if io.written <= |serialized| then serialized[..io.written] else serialized));
        return false;
      }
      disk := disk.(temp := Some(serialized));
      if !io.sync { return false; }
      if !io.rename { return false; }
      disk := Disk(disk.temp, None);
      return true;
    }

    method CreateFamily(familyId: string, hash: TokenHash, expiresAt: nat, now: nat, io: Io) returns (r: Reply)
      requires Valid()
      modifies this
      ensures Valid()
      ensures var plan := PlanFor(old(state), Create(familyId, hash, expiresAt, now));
              r == Answer(plan, io.AllSucceed()) && state == Settle(old(state), plan, io.AllSucceed())
      ensures r != Done ==> disk.final == old(disk.final)
    {
      var next := state.(families := Prune(state.families, now));
      if familyId in next.families { return Refused(Entropy); }
      next := next.(families := next.families[familyId := Family(hash, expiresAt, false)]);
      var ok := Persist(next, io);
      if !ok { return Refused(Internal); }
      state := next;
      return Done;
    }

    method RotateFamily(familyId: string, presented: TokenHash, nextHash: TokenHash, expiresAt: nat, now: nat, io: Io)
      returns (r: Reply)
      requires Valid()
      modifies this
      ensures Valid()
      ensures var plan := PlanFor(old(state), Rotate(familyId, presented, nextHash, expiresAt, now));
              r == Answer(plan, io.AllSucceed()) && state == Settle(old(state), plan, io.AllSucceed())
      ensures !io.AllSucceed() ==> disk.final == old(disk.final)
    {
      var next := state.(families := Prune(state.families, now));
      var changed := |next.families| != |state.families|;
      PruneBySize(state.families, now);
      if familyId !in next.families {
        if changed {
          var ok := Persist(next, io);
          if !ok { return Refused(Internal); }
          state := next;
        }
        return Refused(InvalidGrant);
      }
      var family := next.families[familyId];
      if family.revoked || family.activeTokenHash != presented {
        if !family.revoked {
          next := next.(families := next.families[familyId := family.(revoked := true)]);
          changed := true;
        }
        if changed {
          var ok := Persist(next, io);
          if !ok { return Refused(Internal); }
          state := next;
        }
        return Refused(InvalidGrant);
      }
      next := next.(families := next.families[familyId := Family(nextHash, expiresAt, family.revoked)]);
      var ok := Persist(next, io);
      if !ok { return Refused(Internal); }
      state := next;
      return Done;
    }

    method Active(familyId: string, now: nat) returns (b: bool)
      ensures b == IsActive(state, familyId, now)
    {
      b := familyId in state.families && !state.families[familyId].revoked && state.families[familyId].expiresAt > now;
    }
  }

  /** How the system calls of `open` turn out. A state file that is not there is `disk.final == None`. */
  datatype StartIo = StartIo(createDir: bool, statDir: bool, isDir: bool, statFile: bool, isFile: bool, read: bool)

  /** What `open` answers when it does not get as far as the file's contents. */
  function StartError(io: StartIo, disk: Disk): (r: Option<OAuthError>) {
    if !io.createDir || !io.statDir then Some(Internal)
    else if !io.isDir then Some(InvalidConfiguration)
    else if !io.statFile then Some(Internal)
    else if disk.final.None? then None
    else if !io.isFile || |disk.final.value| > MAX_REFRESH_STATE_BYTES then Some(InvalidConfiguration)
    else if !io.read then Some(Internal)
    else None
  }

  /** `open`: whatever the file holds, refuses to start unless it loads, and never touches it. */
  method Open(codec: Codec, disk: Disk, io: StartIo) returns (r: Result<RefreshTokenStore, OAuthError>)
    requires codec.RoundTrips()
    ensures StartError(io, disk).Some? ==> r == Failure(StartError(io, disk).value)
    ensures StartError(io, disk).None? ==> (r.Success? <==> Load(codec, disk).Success?)
    ensures StartError(io, disk).None? && r.Failure? ==> r.error == Load(codec, disk).error
    ensures r.Success? ==> fresh(r.value) && r.value.Valid() && r.value.disk == disk && Load(codec, disk) == Success(r.value.state)
  {
    if !io.createDir { return Failure(Internal); }
    if !io.statDir { return Failure(Internal); }
    if !io.isDir { return Failure(InvalidConfiguration); }
    if !io.statFile { return Failure(Internal); }
    var state := DEFAULT_STATE;
    if disk.final.Some? {
      var contents := disk.final.value;
      if !io.isFile || |contents| > MAX_REFRESH_STATE_BYTES { return Failure(InvalidConfiguration); }
      if !io.read { return Failure(Internal); }
      var decoded := codec.decode(contents);
      if decoded.None? { return Failure(InvalidConfiguration); }
      state := decoded.value;
      if state.version != REFRESH_STATE_VERSION { return Failure(InvalidConfiguration); }
    }
    var store := new RefreshTokenStore(codec, disk, state);
    return Success(store);
  }

  // ---- A state that does not load ----

  /** `n` families created one after another, from nothing. */
  function Created(id: nat -> string, n: nat, expiresAt: nat, now: nat): (r: State) {
    if n == 0 then DEFAULT_STATE
    else PlanFor(Created(id, n - 1, expiresAt, now), Create(id(n - 1), TokenHash(id(n - 1)), expiresAt, now)).next
  }

  ghost predicate AllDistinct(id: nat -> string) {
    forall i: nat, j: nat | i < j :: id(i) != id(j)
  }

  /** Everything stored expires at `expiresAt`, and identifiers from the `n`th on are free. */
  ghost predicate HasRoomFrom(id: nat -> string, n: nat, s: State, expiresAt: nat) {
    && (forall f | f in s.families :: s.families[f].expiresAt == expiresAt)
    && forall i: nat | i >= n :: id(i) !in s.families
  }

  /** Each of them is created: with fresh ids and unexpired families nothing stands in the way and nothing is dropped. */
  lemma {:induction false} CreatedHoldsAll(id: nat -> string, n: nat, expiresAt: nat, now: nat)
    requires AllDistinct(id) && now < expiresAt
    ensures var s := Created(id, n, expiresAt, now);
            && s.version == REFRESH_STATE_VERSION && |s.families| == n && HasRoomFrom(id, n, s, expiresAt)
            && PlanFor(s, Create(id(n), TokenHash(id(n)), expiresAt, now)).reply == Done
  {
    if n > 0 {
      CreatedHoldsAll(id, n - 1, expiresAt, now);
      OneMoreFamily(id, n - 1, Created(id, n - 1, expiresAt, now), expiresAt, now);
    }
  }

  lemma OneMoreFamily(id: nat -> string, n: nat, s: State, expiresAt: nat, now: nat)
    requires now < expiresAt && AllDistinct(id) && HasRoomFrom(id, n, s, expiresAt)
    ensures var next := PlanFor(s, Create(id(n), TokenHash(id(n)), expiresAt, now)).next;
            next.version == s.version && |next.families| == |s.families| + 1 && HasRoomFrom(id, n + 1, next, expiresAt)
  {
    assert Prune(s.families, now) == s.families;
    var next := PlanFor(s, Create(id(n), TokenHash(id(n)), expiresAt, now)).next;
    assert next.families == s.families[id(n) := Family(TokenHash(id(n)), expiresAt, false)];
  }

  /**
    The limit can be passed: with an encoding that spends at least one byte on a family, creating one family more
    than the limit has bytes leaves a state file, written without complaint, that `open` refuses.
   */
  lemma StateMayOutgrowTheLimit(codec: Codec, id: nat -> string, expiresAt: nat, now: nat) returns (s: State, disk: Disk)
    requires codec.RoundTrips() && forall t :: |codec.encode(t)| >= |t.families|
    requires AllDistinct(id) && now < expiresAt
    ensures s == Created(id, MAX_REFRESH_STATE_BYTES + 1, expiresAt, now)
    ensures disk == Disk(Some(codec.encode(s)), None) && Stores(codec, disk, s) && Load(codec, disk) == Failure(InvalidConfiguration)
  {
    var n := MAX_REFRESH_STATE_BYTES + 1;
    s := Created(id, n, expiresAt, now);
    disk := Disk(Some(codec.encode(s)), None);
    CreatedHoldsAll(id, n, expiresAt, now);
  }
}
