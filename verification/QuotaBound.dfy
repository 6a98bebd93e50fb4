/** What holds in every run of overlapping `create_note` calls. */
module QuotaBound {
  import opened Common
  import opened NoteNames
  import opened InboxStore
  import opened QuotaRace

  // ---- Sums ----

  function Sum(s: seq<nat>): (r: nat) {
    if s == [] then 0 else Sum(s[..|s| - 1]) + s[|s| - 1]
  }

  lemma {:induction false} TotalIsSum(entries: seq<Entry>)
    ensures TotalSize(entries) == Sum(Sizes(entries))
  {
    if entries != [] {
      var n := |entries| - 1;
      TotalIsSum(entries[..n]);
      assert Sizes(entries)[..n] == Sizes(entries[..n]);
    }
  }

  /** The part of the sizes found at the start that a scan has been given. */
  function Seen(floor: seq<nat>, visited: set<nat>): (r: nat) {
    if floor == [] then 0
    else
      var n := |floor| - 1;
      Seen(floor[..n], visited) + if n in visited then floor[n] else 0
  }

  lemma {:induction false} SeeMore(floor: seq<nat>, visited: set<nat>, i: nat)
    requires i !in visited
    ensures Seen(floor, visited + {i}) == Seen(floor, visited) + if i < |floor| then floor[i] else 0
  {
    if floor != [] { SeeMore(floor[..|floor| - 1], visited, i); }
  }

  lemma {:induction false} SeeAll(floor: seq<nat>, visited: set<nat>)
    requires forall i: nat | i < |floor| :: i in visited
    ensures Seen(floor, visited) == Sum(floor)
  {
    if floor != [] { SeeAll(floor[..|floor| - 1], visited); }
  }

  /** What the calls among `others` and those from `from` on have written. */
  function WrittenBy(calls: seq<Call>, others: set<nat>, from: nat): (r: nat) {
    if calls == [] then 0
    else
      var n := |calls| - 1;
      WrittenBy(calls[..n], others, from) + if n in others || n >= from then calls[n].written else 0
  }

  lemma {:induction false} WrittenByUpdate(calls: seq<Call>, others: set<nat>, from: nat, c: nat, call: Call)
    requires c < |calls|
    ensures WrittenBy(calls[c := call], others, from) ==
            WrittenBy(calls, others, from) + if c in others || c >= from then call.written - calls[c].written else 0
  {
    var n := |calls| - 1;
    if c == n {
      assert calls[c := call][..n] == calls[..n];
    } else {
      assert calls[c := call][..n] == calls[..n][c := call];
      WrittenByUpdate(calls[..n], others, from, c, call);
    }
  }

  /** When nobody after `from` has written, that is at most `most` for each other call and what `from` wrote. */
  lemma {:induction false} WrittenByBound(calls: seq<Call>, others: set<nat>, from: nat, most: nat)
    requires forall j: nat | j < |calls| :: calls[j].written <= most
    requires forall j: nat | from < j < |calls| :: calls[j].written == 0
    requires from !in others
    ensures WrittenBy(calls, others, from) <= |others| * most + if from < |calls| then calls[from].written else 0
    decreases |calls|
  {
    if calls != [] {
      var n := |calls| - 1;
      if n in others {
        WithoutLast(calls[..n], others, from, n);
        WrittenByBound(calls[..n], others - {n}, from, most);
        Product1(|others - {n}|, most);
      } else {
        WrittenByBound(calls[..n], others, from, most);
      }
    }
  }

  lemma Product1(a: nat, b: nat)
    ensures (a + 1) * b == a * b + b
  {
  }

  lemma {:induction false} WithoutLast(calls: seq<Call>, others: set<nat>, from: nat, n: nat)
    requires |calls| <= n
    ensures WrittenBy(calls, others - {n}, from) == WrittenBy(calls, others, from)
  {
    if calls != [] { WithoutLast(calls[..|calls| - 1], others, from, n); }
  }

  // ---- The invariant ----

  /** The call's own file holds what it has written, and a stored note is complete. */
  ghost predicate FileInv(entries: seq<Entry>, first: nat, call: Call) {
    && call.written <= call.Size()
    && (call.slot.None? ==> call.written == 0 && !call.stage.Writing? && call.stage != Finished(Stored))
    && (call.slot.Some? ==>
          && first <= call.slot.value < |entries| && entries[call.slot.value] == call.File()
          && call.attempt < MAX_NAME_ATTEMPTS
          && (call.stage.Writing? || call.stage.Finished?))
    && (call.stage == Finished(Stored) ==> call.written == call.Size())
  }

  predicate Tried(entries: seq<Entry>, note: Note, attempts: nat) {
    forall a: nat | a < attempts :: HasName(entries, note.name(a))
  }

  ghost predicate NameInv(entries: seq<Entry>, call: Call) {
    && call.attempt <= MAX_NAME_ATTEMPTS && Tried(entries, call.note, call.attempt)
    && (call.stage == Finished(Refused(NameExhausted)) ==> call.attempt == MAX_NAME_ATTEMPTS)
  }

  predicate Passed(call: Call) {
    call.stage.Naming? || call.stage.Writing? || call.slot.Some?
  }

  /** What a call found room for was there when it began. */
  ghost predicate ScanInv(entries: seq<Entry>, call: Call, maxTotal: nat) {
    && |call.floor| <= |entries| && (forall i: nat | i < |call.floor| :: call.floor[i] <= EntrySize(entries[i]))
    && (call.stage.Scanning? ==> call.stage.total >= Saturated(Seen(call.floor, call.stage.visited)))
    && (Passed(call) ==> Sum(call.floor) + call.Size() <= maxTotal)
  }

  /** All that was written since a call began was written by it, by calls then in flight, or by later ones. */
  ghost predicate RaceInv(w: World, c: nat)
    requires c < |w.calls|
  {
    && (forall j | j in w.calls[c].others :: j < c)
    && (forall j: nat | j < c && j !in w.calls[c].others :: w.calls[j].stage.Finished?)
    && TotalSize(w.entries) <= Sum(w.calls[c].floor) + WrittenBy(w.calls, w.calls[c].others, c)
  }

  predicate Owns(calls: seq<Call>, i: nat) {
    exists c | 0 <= c < |calls| :: calls[c].slot == Some(i)
  }

  ghost predicate OwnerInv(w: World, first: nat) {
    && (forall c, d | 0 <= c < d < |w.calls| && w.calls[c].slot.Some? :: w.calls[c].slot != w.calls[d].slot)
    && (forall i | first <= i < |w.entries| :: Owns(w.calls, i))
  }

  predicate DistinctNames(entries: seq<Entry>) {
    forall i, j | 0 <= i < j < |entries| :: entries[i].name != entries[j].name
  }

  ghost predicate OwnInv(entries: seq<Entry>, first: nat, call: Call, maxTotal: nat) {
    FileInv(entries, first, call) && NameInv(entries, call) && ScanInv(entries, call, maxTotal)
  }

  ghost predicate CallInv(w: World, first: nat, maxTotal: nat, c: nat)
    requires c < |w.calls|
  {
    OwnInv(w.entries, first, w.calls[c], maxTotal) && RaceInv(w, c)
  }

  ghost predicate Inv(w: World, first: seq<Entry>, maxTotal: nat) {
    && first <= w.entries && OwnerInv(w, |first|)
    && forall c: nat | c < |w.calls| :: CallInv(w, |first|, maxTotal, c)
  }

  // ---- Every step keeps it ----

  /** Entries keep their place and name and never shrink. */
  ghost predicate Extends(a: seq<Entry>, b: seq<Entry>) {
    && |a| <= |b|
    && forall i | 0 <= i < |a| :: a[i].name == b[i].name && EntrySize(a[i]) <= EntrySize(b[i])
  }

  lemma NamesStay(a: seq<Entry>, b: seq<Entry>, note: Note, attempts: nat)
    requires Extends(a, b) && Tried(a, note, attempts)
    ensures Tried(b, note, attempts)
  {
    forall k: nat | k < attempts ensures HasName(b, note.name(k)) {
      var i :| 0 <= i < |a| && a[i].name == note.name(k);
      assert b[i].name == note.name(k);
    }
  }

  /** How one step of call `c` may change the world. */
  ghost predicate Moves(w: World, v: World, c: nat) {
    && c < |w.calls| == |v.calls| && v.calls == w.calls[c := v.calls[c]]
    && !w.calls[c].stage.Finished?
    && v.calls[c].note == w.calls[c].note && v.calls[c].floor == w.calls[c].floor && v.calls[c].others == w.calls[c].others
    && Extends(w.entries, v.entries)
    && (forall i: nat | i < |w.entries| && w.calls[c].slot != Some(i) :: v.entries[i] == w.entries[i])
    && TotalSize(v.entries) + w.calls[c].written == TotalSize(w.entries) + v.calls[c].written
  }

  lemma MoveKeepsRaces(w: World, v: World, c: nat, d: nat)
    requires Moves(w, v, c) && d < |w.calls| && RaceInv(w, d)
    ensures RaceInv(v, d)
  {
    WrittenByUpdate(w.calls, w.calls[d].others, d, c, v.calls[c]);
  }

  lemma MoveKeepsOthers(w: World, v: World, first: seq<Entry>, maxTotal: nat, c: nat, d: nat)
    requires Moves(w, v, c) && Inv(w, first, maxTotal) && d < |w.calls| && d != c
    ensures CallInv(v, |first|, maxTotal, d)
  {
    assert CallInv(w, |first|, maxTotal, d);
    MoveKeepsRaces(w, v, c, d);
    NamesStay(w.entries, v.entries, w.calls[d].note, w.calls[d].attempt);
    assert w.calls[d].slot.Some? ==> w.calls[c].slot != w.calls[d].slot;
  }

  /** Only the moving call's own part is left to show. */
  lemma MoveKeepsInv(w: World, v: World, first: seq<Entry>, maxTotal: nat, c: nat)
    requires Moves(w, v, c) && Inv(w, first, maxTotal)
    requires first <= v.entries && OwnerInv(v, |first|)
    requires OwnInv(v.entries, |first|, v.calls[c], maxTotal)
    ensures Inv(v, first, maxTotal)
  {
    assert CallInv(w, |first|, maxTotal, c);
    MoveKeepsRaces(w, v, c, c);
    forall d: nat | d < |v.calls| ensures CallInv(v, |first|, maxTotal, d) {
      if d != c { MoveKeepsOthers(w, v, first, maxTotal, c, d); }
    }
  }

  lemma SameOwners(w: World, v: World, first: nat, c: nat)
    requires OwnerInv(w, first) && c < |w.calls| && |v.calls| == |w.calls| && v.calls == w.calls[c := v.calls[c]]
    requires |v.entries| == |w.entries| && v.calls[c].slot == w.calls[c].slot
    ensures OwnerInv(v, first)
  {
    forall i | first <= i < |v.entries| ensures Owns(v.calls, i) {
      assert Owns(w.calls, i);
      var d :| 0 <= d < |w.calls| && w.calls[d].slot == Some(i);
      assert v.calls[d].slot == Some(i);
    }
  }

  lemma {:induction false} OneMoreByte(entries: seq<Entry>, i: nat, e: Entry)
    requires i < |entries|
    ensures TotalSize(entries[i := e]) == TotalSize(entries) - EntrySize(entries[i]) + EntrySize(e)
    decreases |entries|
  {
    var n := |entries| - 1;
    if i == n {
      assert entries[i := e][..n] == entries[..n];
    } else {
      assert entries[i := e][..n] == entries[..n][i := e];
      OneMoreByte(entries[..n], i, e);
    }
  }

  /** A scanning call adds one entry's size. */
  lemma VisitKeepsScan(entries: seq<Entry>, call: Call, entry: nat, maxTotal: nat)
    requires ScanInv(entries, call, maxTotal) && call.stage.Scanning? && call.slot.None?
    requires entry < |entries| && entry !in call.stage.visited
    ensures ScanInv(entries, Next(entries, call, Visit(0, entry), maxTotal), maxTotal)
  {
    SeeMore(call.floor, call.stage.visited, entry);
  }

  /** A complete scan that leaves room left room for what was there at its start. */
  lemma CheckKeepsScan(entries: seq<Entry>, call: Call, maxTotal: nat)
    requires ScanInv(entries, call, maxTotal) && call.stage.Scanning? && ScanIsDone(call) && maxTotal < U64_MAX && call.slot.None?
    ensures ScanInv(entries, Checked(call, maxTotal), maxTotal)
  {
    SeeAll(call.floor, call.stage.visited);
  }

  /** The steps that change no entry. */
  lemma QuietOwn(entries: seq<Entry>, first: nat, call: Call, a: Action, maxTotal: nat)
    requires OwnInv(entries, first, call, maxTotal) && maxTotal < U64_MAX
    requires match a
             case Visit(_, entry) => call.stage.Scanning? && entry < |entries| && entry !in call.stage.visited
             case Check(_) => call.stage.Scanning? && ScanIsDone(call)
             case Sync(_) => call.stage.Writing? && call.written == call.Size()
             case Fail(_) => !call.stage.Finished?
             case _ => false
    ensures OwnInv(entries, first, Next(entries, call, a, maxTotal), maxTotal)
  {
    if a.Visit? {
      VisitKeepsScan(entries, call, a.entry, maxTotal);
    } else if a.Check? {
      CheckKeepsScan(entries, call, maxTotal);
    }
  }

  lemma TakenOwn(entries: seq<Entry>, first: nat, call: Call, maxTotal: nat)
    requires OwnInv(entries, first, call, maxTotal) && call.stage.Naming? && !Created(entries, call).stage.Writing?
    ensures OwnInv(entries, first, Created(entries, call), maxTotal)
  {
  }

  lemma CreatedOwn(entries: seq<Entry>, first: nat, call: Call, maxTotal: nat)
    requires OwnInv(entries, first, call, maxTotal) && call.stage.Naming? && Created(entries, call).stage.Writing?
    requires first <= |entries|
    ensures var after := entries + [Created(entries, call).File()];
            OwnInv(after, first, Created(entries, call), maxTotal) && Extends(entries, after) && TotalSize(after) == TotalSize(entries)
  {
    var after := entries + [Created(entries, call).File()];
    assert after[..|entries|] == entries;
    NamesStay(entries, after, call.note, call.attempt);
  }

  lemma WriteOwn(entries: seq<Entry>, first: nat, call: Call, more: nat, maxTotal: nat)
    requires OwnInv(entries, first, call, maxTotal) && call.stage.Writing? && call.written + more <= call.Size()
    requires call.slot.Some?
    ensures var longer := Longer(call, more);
            var after := Rewritten(entries, longer);
            && OwnInv(after, first, longer, maxTotal) && Extends(entries, after)
            && TotalSize(after) == TotalSize(entries) + more
  {
    var longer := Longer(call, more);
    var after := Rewritten(entries, longer);
    OneMoreByte(entries, call.slot.value, longer.File());
    NamesStay(entries, after, call.note, call.attempt);
  }

  lemma QuietStepKeepsInv(w: World, a: Action, first: seq<Entry>, maxTotal: nat)
    requires Inv(w, first, maxTotal) && Enabled(w, a) && maxTotal < U64_MAX
    requires a.Visit? || a.Check? || a.Sync? || a.Fail?
    ensures Inv(Step(w, a, maxTotal), first, maxTotal)
    ensures Moves(w, Step(w, a, maxTotal), a.call)
  {
    var v, c := Step(w, a, maxTotal), a.call;
    assert CallInv(w, |first|, maxTotal, c);
    QuietOwn(w.entries, |first|, w.calls[c], a, maxTotal);
    SameOwners(w, v, |first|, c);
    MoveKeepsInv(w, v, first, maxTotal, c);
  }

  function Longer(call: Call, more: nat): (r: Call) {
    call.(written := call.written + more)
  }

  function Rewritten(entries: seq<Entry>, call: Call): (r: seq<Entry>)
    requires call.slot.Some? && call.slot.value < |entries|
  {
    entries[call.slot.value := call.File()]
  }

  lemma WriteIsStep(w: World, a: Action, maxTotal: nat)
    requires Enabled(w, a) && a.Write?
    ensures var longer := Longer(w.calls[a.call], a.more);
            Step(w, a, maxTotal) == World(Rewritten(w.entries, longer), w.calls[a.call := longer])
  {
  }

  lemma MovesFrom(w: World, entries: seq<Entry>, c: nat, call: Call)
    requires c < |w.calls| && !w.calls[c].stage.Finished?
    requires call.note == w.calls[c].note && call.floor == w.calls[c].floor && call.others == w.calls[c].others
    requires Extends(w.entries, entries) && forall i: nat | i < |w.entries| && w.calls[c].slot != Some(i) :: entries[i] == w.entries[i]
    requires TotalSize(entries) + w.calls[c].written == TotalSize(w.entries) + call.written
    ensures Moves(w, World(entries, w.calls[c := call]), c)
  {
  }

  lemma WriteMoves(w: World, c: nat, more: nat, first: nat, maxTotal: nat)
    requires c < |w.calls| && OwnInv(w.entries, first, w.calls[c], maxTotal)
    requires w.calls[c].stage.Writing? && w.calls[c].written + more <= w.calls[c].Size() && w.calls[c].slot.Some?
    ensures var longer := Longer(w.calls[c], more);
            Moves(w, World(Rewritten(w.entries, longer), w.calls[c := longer]), c)
  {
    var longer := Longer(w.calls[c], more);
    WriteOwn(w.entries, first, w.calls[c], more, maxTotal);
    MovesFrom(w, Rewritten(w.entries, longer), c, longer);
  }

  lemma WriteKeepsInv(w: World, a: Action, first: seq<Entry>, maxTotal: nat)
    requires Inv(w, first, maxTotal) && Enabled(w, a) && a.Write?
    ensures Inv(Step(w, a, maxTotal), first, maxTotal)
    ensures Moves(w, Step(w, a, maxTotal), a.call)
  {
    assert CallInv(w, |first|, maxTotal, a.call);
    WriteIsStep(w, a, maxTotal);
    WriteOwn(w.entries, |first|, w.calls[a.call], a.more, maxTotal);
    WriteMoves(w, a.call, a.more, |first|, maxTotal);
    SameOwners(w, Step(w, a, maxTotal), |first|, a.call);
    MoveKeepsInv(w, Step(w, a, maxTotal), first, maxTotal, a.call);
  }

  lemma TakenKeepsInv(w: World, c: nat, first: seq<Entry>, maxTotal: nat)
    requires Inv(w, first, maxTotal) && Enabled(w, Create(c)) && !Created(w.entries, w.calls[c]).stage.Writing?
    ensures Inv(Step(w, Create(c), maxTotal), first, maxTotal)
    ensures Moves(w, Step(w, Create(c), maxTotal), c)
  {
    var v := Step(w, Create(c), maxTotal);
    assert CallInv(w, |first|, maxTotal, c);
    TakenOwn(w.entries, |first|, w.calls[c], maxTotal);
    SameOwners(w, v, |first|, c);
    MoveKeepsInv(w, v, first, maxTotal, c);
  }

  lemma CreateKeepsOwners(w: World, v: World, first: nat, c: nat)
    requires OwnerInv(w, first) && c < |w.calls| && |v.calls| == |w.calls| && v.calls == w.calls[c := v.calls[c]]
    requires |v.entries| == |w.entries| + 1 && w.calls[c].slot.None? && v.calls[c].slot == Some(|w.entries|)
    requires forall d | 0 <= d < |w.calls| && w.calls[d].slot.Some? :: w.calls[d].slot.value < |w.entries|
    ensures OwnerInv(v, first)
  {
    forall i | first <= i < |v.entries| ensures Owns(v.calls, i) {
      if i == |w.entries| {
        assert v.calls[c].slot == Some(i);
      } else {
        assert Owns(w.calls, i);
        var d :| 0 <= d < |w.calls| && w.calls[d].slot == Some(i);
        assert v.calls[d].slot == Some(i);
      }
    }
  }

  lemma CreateKeepsInv(w: World, c: nat, first: seq<Entry>, maxTotal: nat)
    requires Inv(w, first, maxTotal) && Enabled(w, Create(c)) && Created(w.entries, w.calls[c]).stage.Writing?
    ensures Inv(Step(w, Create(c), maxTotal), first, maxTotal)
    ensures Moves(w, Step(w, Create(c), maxTotal), c)
  {
    var v := Step(w, Create(c), maxTotal);
    assert CallInv(w, |first|, maxTotal, c);
    CreatedOwn(w.entries, |first|, w.calls[c], maxTotal);
    forall d | 0 <= d < |w.calls| && w.calls[d].slot.Some? ensures w.calls[d].slot.value < |w.entries| {
      assert CallInv(w, |first|, maxTotal, d);
    }
    CreateKeepsOwners(w, v, |first|, c);
    MoveKeepsInv(w, v, first, maxTotal, c);
  }

  lemma StartKeepsInv(w: World, note: Note, first: seq<Entry>, maxTotal: nat)
    requires Inv(w, first, maxTotal)
    ensures Inv(Step(w, Start(note), maxTotal), first, maxTotal)
  {
    var v, n := Step(w, Start(note), maxTotal), |w.calls|;
    assert v.calls[..n] == w.calls;
    TotalIsSum(w.entries);
    SeeNothing(v.calls[n].floor);
    forall c: nat | c < |v.calls| ensures CallInv(v, |first|, maxTotal, c) {
      if c < n {
        assert CallInv(w, |first|, maxTotal, c);
      } else {
        assert forall j: nat | j < n && j !in InFlight(w.calls) :: w.calls[j].stage.Finished?;
      }
    }
    forall i | |first| <= i < |v.entries| ensures Owns(v.calls, i) {
      assert Owns(w.calls, i);
      var d :| 0 <= d < |w.calls| && w.calls[d].slot == Some(i);
      assert v.calls[d].slot == Some(i);
    }
  }

  lemma {:induction false} SeeNothing(floor: seq<nat>)
    ensures Seen(floor, {}) == 0
  {
    if floor != [] { SeeNothing(floor[..|floor| - 1]); }
  }

  lemma StepKeepsInv(w: World, a: Action, first: seq<Entry>, maxTotal: nat)
    requires Inv(w, first, maxTotal) && Enabled(w, a) && maxTotal < U64_MAX
    ensures Inv(Step(w, a, maxTotal), first, maxTotal)
    ensures !a.Start? ==> Moves(w, Step(w, a, maxTotal), a.call)
  {
    match a
    case Start(note) => StartKeepsInv(w, note, first, maxTotal);
    case Write(_, _) => WriteKeepsInv(w, a, first, maxTotal);
    case Create(c) =>
      if Created(w.entries, w.calls[c]).stage.Writing? {
        CreateKeepsInv(w, c, first, maxTotal);
      } else {
        TakenKeepsInv(w, c, first, maxTotal);
      }
    case _ => QuietStepKeepsInv(w, a, first, maxTotal);
  }

  lemma {:induction false} RunKeepsInv(run: seq<World>, steps: seq<Action>, maxTotal: nat, i: nat)
    requires IsRun(run, steps, maxTotal) && maxTotal < U64_MAX && i < |run|
    ensures Inv(run[i], run[0].entries, maxTotal)
  {
    if i > 0 {
      RunKeepsInv(run, steps, maxTotal, i - 1);
      assert Goes(run, steps, maxTotal, i - 1);
      StepKeepsInv(run[i - 1], steps[i - 1], run[0].entries, maxTotal);
    }
  }

  // ---- The quota ----

  ghost predicate AtMostInFlight(run: seq<World>, k: nat) {
    forall i | 0 <= i < |run| :: |InFlight(run[i].calls)| <= k
  }

  predicate NotesFit(calls: seq<Call>, most: nat) {
    forall c | 0 <= c < |calls| :: calls[c].Size() <= most
  }

  lemma OneMoreInFlight(calls: seq<Call>, call: Call)
    requires !call.stage.Finished?
    ensures |InFlight(calls + [call])| == |InFlight(calls)| + 1
  {
    var more := calls + [call];
    forall c: nat ensures c in InFlight(more) <==> c in InFlight(calls) || c == |calls| {
      if c < |calls| { assert more[c] == calls[c]; }
    }
    assert InFlight(more) == InFlight(calls) + {|calls|} && |calls| !in InFlight(calls);
  }

  /** What `c` remembers of its start: at most `k - 1` other calls were in flight. */
  lemma {:induction false} OthersAreFew(run: seq<World>, steps: seq<Action>, maxTotal: nat, k: nat, i: nat)
    requires IsRun(run, steps, maxTotal) && AtMostInFlight(run, k) && i < |run|
    ensures forall c | 0 <= c < |run[i].calls| :: |run[i].calls[c].others| < k
  {
    if i > 0 {
      OthersAreFew(run, steps, maxTotal, k, i - 1);
      var w, a := run[i - 1], steps[i - 1];
      assert Goes(run, steps, maxTotal, i - 1);
      if a.Start? {
        OneMoreInFlight(w.calls, Begin(w, a.note));
      } else {
        StepKeepsOthers(w, a, maxTotal);
      }
    }
  }

  lemma StepKeepsOthers(w: World, a: Action, maxTotal: nat)
    requires Enabled(w, a) && !a.Start?
    ensures |Step(w, a, maxTotal).calls| == |w.calls|
    ensures forall c | 0 <= c < |w.calls| :: Step(w, a, maxTotal).calls[c].others == w.calls[c].others
  {
  }

  /** The last of the calls that have written anything. */
  lemma {:induction false} LastWriter(calls: seq<Call>) returns (c: nat)
    requires AnyWritten(calls)
    ensures c < |calls| && calls[c].written > 0 && forall d | c < d < |calls| :: calls[d].written == 0
  {
    c := |calls| - 1;
    if calls[c].written == 0 {
      var d :| 0 <= d < |calls| && calls[d].written > 0;
      assert calls[..c][d].written > 0;
      c := LastWriter(calls[..c]);
      forall d | c < d < |calls| ensures calls[d].written == 0 {
        if d < |calls| - 1 { assert calls[..|calls| - 1][d].written == 0; }
      }
    }
  }

  /** The bound, from the invariant alone. */
  lemma BoundFromInv(w: World, first: seq<Entry>, maxTotal: nat, k: nat, most: nat)
    requires Inv(w, first, maxTotal) && NotesFit(w.calls, most) && k > 0
    requires forall c | 0 <= c < |w.calls| :: |w.calls[c].others| < k
    requires AnyWritten(w.calls)
    ensures TotalSize(w.entries) <= maxTotal + (k - 1) * most
  {
    var x := LastWriter(w.calls);
    var call := w.calls[x];
    assert CallInv(w, |first|, maxTotal, x);
    forall j: nat | j < |w.calls| ensures w.calls[j].written <= most {
      assert CallInv(w, |first|, maxTotal, j);
    }
    WrittenByBound(w.calls, call.others, x, most);
    Product(|call.others|, k - 1, most);
  }

  lemma Product(a: nat, b: nat, c: nat)
    requires a <= b
    ensures a * c <= b * c
  {
  }

  predicate AnyWritten(calls: seq<Call>) {
    exists c | 0 <= c < |calls| :: calls[c].written > 0
  }

  lemma MoveWrites(w: World, v: World, c: nat)
    requires Moves(w, v, c) && v.calls[c].written >= w.calls[c].written
    ensures AnyWritten(w.calls) ==> AnyWritten(v.calls)
    ensures TotalSize(v.entries) == TotalSize(w.entries) || AnyWritten(v.calls)
  {
    if AnyWritten(w.calls) {
      var d :| 0 <= d < |w.calls| && w.calls[d].written > 0;
      assert v.calls[d].written > 0;
    }
    assert v.calls[c].written > 0 ==> AnyWritten(v.calls);
  }

  lemma StartWritesNothing(w: World, note: Note, maxTotal: nat)
    ensures var v := Step(w, Start(note), maxTotal); v.entries == w.entries && (AnyWritten(w.calls) ==> AnyWritten(v.calls))
  {
    var v := Step(w, Start(note), maxTotal);
    if AnyWritten(w.calls) {
      var d :| 0 <= d < |w.calls| && w.calls[d].written > 0;
      assert v.calls[d].written > 0;
    }
  }

  lemma StepOnlyAdds(w: World, a: Action, maxTotal: nat)
    requires Enabled(w, a) && !a.Start?
    ensures a.call < |Step(w, a, maxTotal).calls| && Step(w, a, maxTotal).calls[a.call].written >= w.calls[a.call].written
  {
  }

  lemma {:induction false} NothingWritten(run: seq<World>, steps: seq<Action>, maxTotal: nat, i: nat)
    requires IsRun(run, steps, maxTotal) && maxTotal < U64_MAX && i < |run|
    ensures TotalSize(run[i].entries) == TotalSize(run[0].entries) || AnyWritten(run[i].calls)
  {
    if i > 0 {
      var w, a := run[i - 1], steps[i - 1];
      NothingWritten(run, steps, maxTotal, i - 1);
      RunKeepsInv(run, steps, maxTotal, i - 1);
      assert Goes(run, steps, maxTotal, i - 1);
      if a.Start? {
        StartWritesNothing(w, a.note, maxTotal);
      } else {
        StepKeepsInv(w, a, run[0].entries, maxTotal);
        StepOnlyAdds(w, a, maxTotal);
        MoveWrites(w, Step(w, a, maxTotal), a.call);
      }
    }
  }

  /**
    With at most `k` calls in flight at any moment, from the start of the scan to the end, and notes of at most
    `most` bytes, a directory that begins within the quota exceeds it by at most `k - 1` notes.
   */
  lemma QuotaHolds(run: seq<World>, steps: seq<Action>, maxTotal: nat, k: nat, most: nat, i: nat)
    requires IsRun(run, steps, maxTotal) && maxTotal < U64_MAX && i < |run|
    requires TotalSize(run[0].entries) <= maxTotal
    requires AtMostInFlight(run, k) && k > 0 && NotesFit(run[i].calls, most)
    ensures TotalSize(run[i].entries) <= maxTotal + (k - 1) * most
  {
    RunKeepsInv(run, steps, maxTotal, i);
    NothingWritten(run, steps, maxTotal, i);
    if AnyWritten(run[i].calls) {
      OthersAreFew(run, steps, maxTotal, k, i);
      BoundFromInv(run[i], run[0].entries, maxTotal, k, most);
    }
  }

  /** A single writer never exceeds the quota, whatever the sizes. */
  lemma OneWriterStaysWithinQuota(run: seq<World>, steps: seq<Action>, maxTotal: nat, i: nat)
    requires IsRun(run, steps, maxTotal) && maxTotal < U64_MAX && i < |run|
    requires TotalSize(run[0].entries) <= maxTotal && AtMostInFlight(run, 1)
    ensures TotalSize(run[i].entries) <= maxTotal
  {
    var most := Largest(run[i].calls);
    QuotaHolds(run, steps, maxTotal, 1, most, i);
  }

  lemma {:induction false} Largest(calls: seq<Call>) returns (most: nat)
    ensures NotesFit(calls, most)
  {
    most := 0;
    if calls != [] {
      var n := |calls| - 1;
      most := Largest(calls[..n]);
      forall c | 0 <= c < |calls| ensures calls[c].Size() <= most + calls[n].Size() {
        if c < n { assert calls[..n][c].Size() <= most; }
      }
      most := most + calls[n].Size();
    }
  }

  // ---- Append only ----

  /**
    In every run, whatever overlaps, fails or crashes: what was there keeps its name and contents; every later
    entry was created by exactly one call and holds a prefix of that call's note under a name it tried, the
    whole note once it is stored; and a call gives up for want of a name only when all it may try exist.
   */
  lemma InboxIsAppendOnly(run: seq<World>, steps: seq<Action>, maxTotal: nat, i: nat)
    requires IsRun(run, steps, maxTotal) && maxTotal < U64_MAX && i < |run|
    ensures run[0].entries <= run[i].entries
    ensures forall e | |run[0].entries| <= e < |run[i].entries| :: Owns(run[i].calls, e)
    ensures forall c, d | 0 <= c < d < |run[i].calls| && run[i].calls[c].slot.Some? :: run[i].calls[c].slot != run[i].calls[d].slot
    ensures forall c | 0 <= c < |run[i].calls| :: HoldsItsNote(run[i].entries, |run[0].entries|, run[i].calls[c])
    ensures forall c | 0 <= c < |run[i].calls| && run[i].calls[c].stage == Finished(Refused(NameExhausted)) ::
              Tried(run[i].entries, run[i].calls[c].note, MAX_NAME_ATTEMPTS)
  {
    var w, first := run[i], run[0].entries;
    RunKeepsInv(run, steps, maxTotal, i);
    forall c | 0 <= c < |w.calls|
      ensures HoldsItsNote(w.entries, |first|, w.calls[c])
      ensures w.calls[c].stage == Finished(Refused(NameExhausted)) ==> Tried(w.entries, w.calls[c].note, MAX_NAME_ATTEMPTS)
    {
      assert CallInv(w, |first|, maxTotal, c);
      assert w.calls[c].note.contents[..w.calls[c].Size()] == w.calls[c].note.contents;
    }
  }

  ghost predicate HoldsItsNote(entries: seq<Entry>, first: nat, call: Call) {
    && (call.stage == Finished(Stored) ==> call.slot.Some?)
    && (call.slot.Some? ==>
          && first <= call.slot.value < |entries| && call.attempt < MAX_NAME_ATTEMPTS
          && entries[call.slot.value].name == call.note.name(call.attempt)
          && entries[call.slot.value].contents <= call.note.contents
          && (call.stage == Finished(Stored) ==> entries[call.slot.value].contents == call.note.contents))
  }

  /** For a note named as the server names it, that means 64 entries. */
  lemma ExhaustionTakesAsManyEntries(entries: seq<Entry>, seconds: int, title: string, contents: Bytes)
    requires Tried(entries, NoteFor(seconds, title, contents), MAX_NAME_ATTEMPTS)
    ensures |entries| >= MAX_NAME_ATTEMPTS
  {
    var note := NoteFor(seconds, title, contents);
    forall a: nat, b: nat | note.name(a) == note.name(b) ensures a == b {
      AttemptsAreDistinct(seconds, Slug(title), a, b);
    }
    TriedNamesNeedEntries(entries, note, MAX_NAME_ATTEMPTS);
  }

  lemma {:induction false} TriedNamesNeedEntries(entries: seq<Entry>, note: Note, attempts: nat)
    requires Tried(entries, note, attempts) && forall a: nat, b: nat | note.name(a) == note.name(b) :: a == b
    ensures |entries| >= attempts
  {
    var names := Names(note, attempts);
    var present := EntryNames(entries);
    forall n | n in names ensures n in present {
      var a: nat :| a < attempts && note.name(a) == n;
      assert HasName(entries, note.name(a));
    }
    SubsetSize(names, present);
  }

  ghost function Names(note: Note, attempts: nat): (r: set<string>)
    requires forall a: nat, b: nat | note.name(a) == note.name(b) :: a == b
    ensures |r| == attempts && forall n :: n in r <==> exists a: nat :: a < attempts && note.name(a) == n
  {
    if attempts == 0 then {} else Names(note, attempts - 1) + {note.name(attempts - 1)}
  }

  ghost function EntryNames(entries: seq<Entry>): (r: set<string>)
    ensures |r| <= |entries| && forall n :: n in r <==> HasName(entries, n)
  {
    if entries == [] then {}
    else
      var before := entries[..|entries| - 1];
      var last := entries[|entries| - 1];
      assert forall n :: HasName(entries, n) <==> HasName(before, n) || last.name == n by { assert entries == before + [last]; }
      EntryNames(before) + {last.name}
  }

  lemma StepKeepsNamesDistinct(w: World, a: Action, first: seq<Entry>, maxTotal: nat)
    requires Inv(w, first, maxTotal) && Enabled(w, a) && maxTotal < U64_MAX && DistinctNames(w.entries)
    ensures DistinctNames(Step(w, a, maxTotal).entries)
  {
    StepKeepsInv(w, a, first, maxTotal);
  }

  lemma {:induction false} NamesStayDistinct(run: seq<World>, steps: seq<Action>, maxTotal: nat, i: nat)
    requires IsRun(run, steps, maxTotal) && maxTotal < U64_MAX && i < |run| && DistinctNames(run[0].entries)
    ensures DistinctNames(run[i].entries)
  {
    if i > 0 {
      NamesStayDistinct(run, steps, maxTotal, i - 1);
      RunKeepsInv(run, steps, maxTotal, i - 1);
      assert Goes(run, steps, maxTotal, i - 1);
      StepKeepsNamesDistinct(run[i - 1], steps[i - 1], run[0].entries, maxTotal);
    }
  }
}
