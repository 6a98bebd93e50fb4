/** Dropping expired families is invisible: the store answers like one that never forgets. */
module Pruning {
  import opened Common
  import opened RefreshStore

  datatype Call =
    | Store(request: Request, persisted: bool)
    | Query(familyId: string, at: nat)
  {
    function Time(): (r: nat) { if Store? then request.now else at }
  }

  datatype Outcome = Replied(reply: Reply) | Told(active: bool)

  // ---- The store ----

  /** The call needs a write and does not get it. */
  predicate Breaks(s: State, c: Call) {
    c.Store? && PlanFor(s, c.request).write && !c.persisted
  }

  function StoreStep(s: State, c: Call): (r: (State, Outcome)) {
    match c
    case Store(r, persisted) => (Settle(s, PlanFor(s, r), persisted), Replied(Answer(PlanFor(s, r), persisted)))
    case Query(f, now) => (s, Told(IsActive(s, f, now)))
  }

  function StoreOutcomes(s: State, calls: seq<Call>): (o: seq<Outcome>)
    ensures |o| == |calls|
    decreases |calls|
  {
    if calls == [] then []
    else [StoreStep(s, calls[0]).1] + StoreOutcomes(StoreStep(s, calls[0]).0, calls[1..])
  }

  function StoreBreaks(s: State, calls: seq<Call>): (b: seq<bool>)
    ensures |b| == |calls|
    decreases |calls|
  {
    if calls == [] then []
    else [Breaks(s, calls[0])] + StoreBreaks(StoreStep(s, calls[0]).0, calls[1..])
  }

  // ---- The reference: every family ever created stays ----

  function ReferencePlan(all: Families, r: Request): (result: (Families, Reply)) {
    match r
    case Create(f, hash, expiresAt, _) =>
      if f in all then (all, Refused(Entropy)) else (all[f := Family(hash, expiresAt, false)], Done)
    case Rotate(f, presented, next, expiresAt, now) =>
      if f !in all || all[f].expiresAt <= now || all[f].revoked then (all, Refused(InvalidGrant))
      else if all[f].activeTokenHash != presented then (all[f := all[f].(revoked := true)], Refused(InvalidGrant))
      else (all[f := Family(next, expiresAt, false)], Done)
  }

  /** `broken`: the disk refused this call, so nothing happens. */
  function ReferenceStep(all: Families, c: Call, broken: bool): (r: (Families, Outcome)) {
    match c
    case Store(r, _) => if broken then (all, Replied(Refused(Internal))) else (ReferencePlan(all, r).0, Replied(ReferencePlan(all, r).1))
    case Query(f, now) => (all, Told(f in all && !all[f].revoked && all[f].expiresAt > now))
  }

  function ReferenceOutcomes(all: Families, calls: seq<Call>, broken: seq<bool>): (o: seq<Outcome>)
    requires |broken| == |calls|
    ensures |o| == |calls|
    decreases |calls|
  {
    if calls == [] then []
    else [ReferenceStep(all, calls[0], broken[0]).1] + ReferenceOutcomes(ReferenceStep(all, calls[0], broken[0]).0, calls[1..], broken[1..])
  }

  /** The family a call is about. */
  function Named(c: Call): (r: string) {
    if c.Store? then c.request.familyId else c.familyId
  }

  /** A family that would still be used at `now`. */
  predicate IsLive(all: Families, f: string, now: nat) {
    f in all && !all[f].revoked && all[f].expiresAt > now
  }

  /** The latest clock reading a store operation has dropped families by. */
  function Horizon(horizon: nat, c: Call): (r: nat) {
    if c.Store? && c.request.now > horizon then c.request.now else horizon
  }

  /**
    No family id is drawn twice, and no call names a family at a time before its expiry once a store operation has
    seen the clock past it. `horizon` is where the clock has been.
   */
  ghost predicate Punctual(all: Families, calls: seq<Call>, broken: seq<bool>, horizon: nat)
    requires |broken| == |calls|
    decreases |calls|
  {
    calls != [] ==>
      && (IsLive(all, Named(calls[0]), calls[0].Time()) ==> all[Named(calls[0])].expiresAt > horizon)
      && (calls[0].Store? && calls[0].request.Create? ==> calls[0].request.familyId !in all)
      && Punctual(ReferenceStep(all, calls[0], broken[0]).0, calls[1..], broken[1..], Horizon(horizon, calls[0]))
  }

  /** The clock never goes back below `clock`, and no family id is drawn twice. */
  ghost predicate Orderly(all: Families, calls: seq<Call>, broken: seq<bool>, clock: nat)
    requires |broken| == |calls|
    decreases |calls|
  {
    calls != [] ==>
      && clock <= calls[0].Time()
      && (calls[0].Store? && calls[0].request.Create? ==> calls[0].request.familyId !in all)
      && Orderly(ReferenceStep(all, calls[0], broken[0]).0, calls[1..], broken[1..], calls[0].Time())
  }

  lemma {:induction false} OrderlyIsPunctual(all: Families, calls: seq<Call>, broken: seq<bool>, clock: nat, horizon: nat)
    requires |broken| == |calls| && horizon <= clock && Orderly(all, calls, broken, clock)
    ensures Punctual(all, calls, broken, horizon)
    decreases |calls|
  {
    if calls != [] {
      OrderlyIsPunctual(ReferenceStep(all, calls[0], broken[0]).0, calls[1..], broken[1..], calls[0].Time(), Horizon(horizon, calls[0]));
    }
  }

  /** The store holds part of the reference. */
  ghost predicate IsPart(kept: Families, all: Families) {
    forall f | f in kept :: f in all && all[f] == kept[f]
  }

  /** The store holds part of the reference, and everything that expires after `horizon`. */
  ghost predicate Remembers(kept: Families, all: Families, horizon: nat) {
    IsPart(kept, all) && forall f | f in all :: all[f].expiresAt > horizon ==> f in kept
  }

  lemma StepRemembers(s: State, all: Families, c: Call, horizon: nat)
    requires Remembers(s.families, all, horizon)
    requires IsLive(all, Named(c), c.Time()) ==> all[Named(c)].expiresAt > horizon
    requires c.Store? && c.request.Create? ==> c.request.familyId !in all
    ensures StoreStep(s, c).1 == ReferenceStep(all, c, Breaks(s, c)).1
    ensures Remembers(StoreStep(s, c).0.families, ReferenceStep(all, c, Breaks(s, c)).0, Horizon(horizon, c))
  {
  }

  /**
    From any store that still holds every family unexpired at `horizon`: over every sequence of punctual calls the
    answers are those of the reference. A write that fails fails for both, also when only dropping families called for it.
   */
  lemma {:induction false} PruningIsInvisible(s: State, all: Families, calls: seq<Call>, horizon: nat)
    requires Remembers(s.families, all, horizon) && Punctual(all, calls, StoreBreaks(s, calls), horizon)
    ensures StoreOutcomes(s, calls) == ReferenceOutcomes(all, calls, StoreBreaks(s, calls))
    decreases |calls|
  {
    if calls != [] {
      var c := calls[0];
      StepRemembers(s, all, c, horizon);
      var s' := StoreStep(s, c).0;
      assert StoreBreaks(s, calls)[1..] == StoreBreaks(s', calls[1..]);
      PruningIsInvisible(s', ReferenceStep(all, c, Breaks(s, c)).0, calls[1..], Horizon(horizon, c));
    }
  }

  /** In particular under a clock that never goes back. */
  lemma PruningIsInvisibleInOrder(s: State, all: Families, calls: seq<Call>, clock: nat)
    requires Remembers(s.families, all, clock) && Orderly(all, calls, StoreBreaks(s, calls), clock)
    ensures StoreOutcomes(s, calls) == ReferenceOutcomes(all, calls, StoreBreaks(s, calls))
  {
    OrderlyIsPunctual(all, calls, StoreBreaks(s, calls), clock, clock);
    PruningIsInvisible(s, all, calls, clock);
  }

  /**
    An answer differs exactly when the call is about a dropped family that would still be used: a question whether it
    is active, or a rotation with its active token that is not stopped by the disk.
   */
  lemma AnswerDiffersExactlyWhen(s: State, all: Families, c: Call)
    requires IsPart(s.families, all)
    requires c.Store? && c.request.Create? ==> c.request.familyId !in all
    ensures StoreStep(s, c).1 != ReferenceStep(all, c, Breaks(s, c)).1 <==>
            && IsLive(all, Named(c), c.Time()) && Named(c) !in s.families
            && (c.Store? ==> !Breaks(s, c) && c.request.presented == all[Named(c)].activeTokenHash)
  {
  }

  /** So the clock matters: once it has been past an expiry and goes back before it, a family is missed. */
  lemma PruningShowsWhenTheClockGoesBack(a: TokenHash, b: TokenHash, f: string, g: string, expiresAt: nat, late: nat, early: nat)
    requires f != g && early < expiresAt <= late
    ensures var calls := [Store(Create(f, a, expiresAt, early), true), Store(Create(g, b, late + 1, late), true), Query(f, early)];
            StoreOutcomes(DEFAULT_STATE, calls) != ReferenceOutcomes(map[], calls, StoreBreaks(DEFAULT_STATE, calls))
  {
    var c0, c1, c2 := Store(Create(f, a, expiresAt, early), true), Store(Create(g, b, late + 1, late), true), Query(f, early);
    var s1, s2 := StoreStep(DEFAULT_STATE, c0).0, StoreStep(StoreStep(DEFAULT_STATE, c0).0, c1).0;
    assert [c0, c1, c2][1..] == [c1, c2] && [c1, c2][1..] == [c2] && [c2][1..] == [];
    assert StoreOutcomes(DEFAULT_STATE, [c0, c1, c2])[2] == StoreOutcomes(s1, [c1, c2])[1] == StoreOutcomes(s2, [c2])[0] == Told(false);
    var r1 := ReferenceStep(map[], c0, false).0;
    var r2 := ReferenceStep(r1, c1, false).0;
    assert StoreBreaks(DEFAULT_STATE, [c0, c1, c2]) == [false, false, false] by {
      assert StoreBreaks(s2, [c2]) == [false] && StoreBreaks(s1, [c1, c2]) == [false] + [false];
    }
    assert [false, false, false][1..] == [false, false] && [false, false][1..] == [false];
    assert ReferenceOutcomes(map[], [c0, c1, c2], [false, false, false])[2] == ReferenceOutcomes(r1, [c1, c2], [false, false])[1]
        == ReferenceOutcomes(r2, [c2], [false])[0] == Told(true);
  }
}
