/** How far overlapping calls can exceed the quota: as far as QuotaBound allows, and no measure smaller than calls in flight says so. */
module QuotaExcess {
  import opened Common
  import opened InboxStore
  import opened NoteNames
  import opened Timestamps
  import opened QuotaRace
  import opened QuotaBound

  function PastTheCheck(calls: seq<Call>): (r: set<nat>) {
    set c: nat | c < |calls| && (calls[c].stage.Naming? || calls[c].stage.Writing?)
  }

  // ---- Runs, one step longer at a time ----

  /** A run from `first` with at most `k` calls and never more than one past the check. */
  ghost predicate IsRace(run: seq<World>, steps: seq<Action>, first: seq<Entry>, maxTotal: nat, k: nat) {
    && IsRun(run, steps, maxTotal) && run[0].entries == first
    && forall i | 0 <= i < |run| :: |run[i].calls| <= k && |PastTheCheck(run[i].calls)| <= 1
  }

  lemma OneAtMost(s: set<nat>, x: nat)
    requires s <= {x}
    ensures |s| <= 1
  {
    assert s == {} || s == {x};
  }

  lemma Extend(run: seq<World>, steps: seq<Action>, first: seq<Entry>, maxTotal: nat, k: nat, a: Action, v: World, past: nat)
    returns (longer: seq<World>, more: seq<Action>)
    requires IsRace(run, steps, first, maxTotal, k) && Enabled(run[|steps|], a) && v == Step(run[|steps|], a, maxTotal)
    requires |v.calls| <= k && PastTheCheck(v.calls) <= {past}
    ensures IsRace(longer, more, first, maxTotal, k) && longer[|more|] == v
  {
    OneAtMost(PastTheCheck(v.calls), past);
    longer, more := run + [v], steps + [a];
    forall i: nat | i < |more| ensures Goes(longer, more, maxTotal, i) {
      if i < |steps| { assert Goes(run, steps, maxTotal, i); }
    }
  }

  // ---- First every call begins and looks at the directory ----

  ghost predicate HasBegun(call: Call, note: Note, entries: seq<Entry>) {
    call.note == note && call.stage.Scanning? && call.floor == Sizes(entries) && call.attempt == 0 && call.written == 0
  }

  /** The call has seen the first `i` entries. */
  ghost predicate HasSeen(call: Call, entries: seq<Entry>, i: nat)
    requires i <= |entries|
  {
    && call.stage.Scanning? && call.stage.total == Saturated(TotalSize(entries[..i]))
    && forall e: nat :: e in call.stage.visited <==> e < i
  }

  lemma {:induction false} AllBegin(first: seq<Entry>, notes: seq<Note>, maxTotal: nat, n: nat) returns (run: seq<World>, steps: seq<Action>)
    requires n <= |notes|
    ensures IsRace(run, steps, first, maxTotal, |notes|)
    ensures var w := run[|steps|]; w.entries == first && |w.calls| == n
    ensures forall c: nat | c < n :: HasBegun(run[|steps|].calls[c], notes[c], first) && HasSeen(run[|steps|].calls[c], first, 0)
  {
    if n == 0 {
      run, steps := [World(first, [])], [];
    } else {
      run, steps := AllBegin(first, notes, maxTotal, n - 1);
      var w := run[|steps|];
      var call := Begin(w, notes[n - 1]);
      run, steps := Extend(run, steps, first, maxTotal, |notes|, Start(notes[n - 1]), World(first, w.calls + [call]), 0);
    }
  }

  lemma {:induction false} Scan(run0: seq<World>, steps0: seq<Action>, first: seq<Entry>, maxTotal: nat, k: nat, c: nat, i: nat)
    returns (run: seq<World>, steps: seq<Action>)
    requires IsRace(run0, steps0, first, maxTotal, k) && run0[|steps0|].entries == first && PastTheCheck(run0[|steps0|].calls) == {}
    requires c < |run0[|steps0|].calls| && HasSeen(run0[|steps0|].calls[c], first, 0) && i <= |first|
    ensures IsRace(run, steps, first, maxTotal, k) && run[|steps|].entries == first && PastTheCheck(run[|steps|].calls) == {}
    ensures |run[|steps|].calls| == |run0[|steps0|].calls|
    ensures HasSeen(run[|steps|].calls[c], first, i)
    ensures run[|steps|].calls[c] == run0[|steps0|].calls[c].(stage := run[|steps|].calls[c].stage)
    ensures forall d: nat | d < |run[|steps|].calls| && d != c :: run[|steps|].calls[d] == run0[|steps0|].calls[d]
  {
    if i == 0 {
      run, steps := run0, steps0;
    } else {
      run, steps := Scan(run0, steps0, first, maxTotal, k, c, i - 1);
      var w := run[|steps|];
      var call := Next(first, w.calls[c], Visit(c, i - 1), maxTotal);
      SeesOneMore(first, w.calls[c], c, i, maxTotal);
      run, steps := Extend(run, steps, first, maxTotal, k, Visit(c, i - 1), World(first, w.calls[c := call]), 0);
    }
  }

  lemma SeesOneMore(entries: seq<Entry>, call: Call, c: nat, i: nat, maxTotal: nat)
    requires 0 < i <= |entries| && HasSeen(call, entries, i - 1)
    ensures HasSeen(Next(entries, call, Visit(c, i - 1), maxTotal), entries, i)
  {
    assert entries[..i][..i - 1] == entries[..i - 1];
  }

  lemma {:induction false} AllScan(first: seq<Entry>, notes: seq<Note>, maxTotal: nat, n: nat) returns (run: seq<World>, steps: seq<Action>)
    requires n <= |notes|
    ensures IsRace(run, steps, first, maxTotal, |notes|)
    ensures run[|steps|].entries == first && |run[|steps|].calls| == |notes| && PastTheCheck(run[|steps|].calls) == {}
    ensures forall c: nat | c < |notes| ::
              HasBegun(run[|steps|].calls[c], notes[c], first) && HasSeen(run[|steps|].calls[c], first, if c < n then |first| else 0)
  {
    if n == 0 {
      run, steps := AllBegin(first, notes, maxTotal, |notes|);
    } else {
      run, steps := AllScan(first, notes, maxTotal, n - 1);
      run, steps := Scan(run, steps, first, maxTotal, |notes|, n - 1, |first|);
    }
  }

  // ---- Then one after another checks, creates its file, writes it and is done ----

  /** The call is ready to check, against what the directory held when it began. */
  ghost predicate IsReady(call: Call, note: Note, first: seq<Entry>) {
    HasBegun(call, note, first) && HasSeen(call, first, |first|)
  }

  /**
    A call whose directory has not changed since it began decides as `InboxStore.CreateNote` does: it refuses for the
    quota in the same case, and then tries names until the first free one.
   */
  lemma UndisturbedCallIsCreateNote(call: Call, note: Note, first: seq<Entry>, maxTotal: nat)
    requires IsReady(call, note, first)
    ensures var checked := Checked(call, maxTotal);
            && (checked.stage == Finished(Refused(QuotaExceeded)) <==>
                  SaturatingAdd(Saturated(TotalSize(first)), |note.contents|) > maxTotal)
            && (checked.stage != Finished(Refused(QuotaExceeded)) ==> checked.stage == Naming && checked.attempt == 0)
    ensures forall c: Call :: c.stage.Naming? && c.note == note && c.attempt < MAX_NAME_ATTEMPTS ==>
              (Created(first, c).stage == Writing <==> !HasName(first, note.name(c.attempt)))
  {
    assert first[..|first|] == first;
  }

  lemma OneStores(run0: seq<World>, steps0: seq<Action>, first: seq<Entry>, maxTotal: nat, k: nat, c: nat, note: Note)
    returns (run: seq<World>, steps: seq<Action>)
    requires IsRace(run0, steps0, first, maxTotal, k) && PastTheCheck(run0[|steps0|].calls) == {}
    requires c < |run0[|steps0|].calls| && IsReady(run0[|steps0|].calls[c], note, first)
    requires TotalSize(first) + |note.contents| <= maxTotal && !HasName(run0[|steps0|].entries, note.name(0))
    ensures IsRace(run, steps, first, maxTotal, k) && PastTheCheck(run[|steps|].calls) == {}
    ensures run[|steps|].entries == run0[|steps0|].entries + [Entry(note.name(0), true, note.contents)]
    ensures |run[|steps|].calls| == |run0[|steps0|].calls|
    ensures run[|steps|].calls[c].stage == Finished(Stored) && run[|steps|].calls[c].note == note
    ensures forall d: nat | d < |run[|steps|].calls| && d != c :: run[|steps|].calls[d] == run0[|steps0|].calls[d]
  {
    var w := run0[|steps0|];
    var entries, calls := w.entries, w.calls;
    var size := |note.contents|;
    assert first[..|first|] == first;
    var checked := calls[c].(stage := Naming);
    var created := checked.(stage := Writing, slot := Some(|entries|));
    var written := created.(written := size);
    var stored := written.(stage := Finished(Stored));
    assert written.File() == Entry(note.name(0), true, note.contents) by { assert note.contents[..size] == note.contents; }
    run, steps := Extend(run0, steps0, first, maxTotal, k, Check(c), World(entries, calls[c := checked]), c);
    run, steps := Extend(run, steps, first, maxTotal, k, Create(c), World(entries + [created.File()], calls[c := created]), c);
    assert (entries + [created.File()])[|entries| := written.File()] == entries + [written.File()];
    run, steps := Extend(run, steps, first, maxTotal, k, Write(c, size), World(entries + [written.File()], calls[c := written]), c);
    run, steps := Extend(run, steps, first, maxTotal, k, Sync(c), World(entries + [written.File()], calls[c := stored]), c);
  }

  /** The first names of the notes are free and distinct. */
  predicate FreshNames(first: seq<Entry>, notes: seq<Note>) {
    && (forall c | 0 <= c < |notes| :: !HasName(first, notes[c].name(0)))
    && (forall c, d | 0 <= c < d < |notes| :: notes[c].name(0) != notes[d].name(0))
  }

  predicate EachFits(first: seq<Entry>, notes: seq<Note>, maxTotal: nat) {
    forall c | 0 <= c < |notes| :: TotalSize(first) + |notes[c].contents| <= maxTotal
  }

  function Files(notes: seq<Note>): (r: seq<Entry>) {
    seq(|notes|, c requires 0 <= c < |notes| => Entry(notes[c].name(0), true, notes[c].contents))
  }

  lemma {:induction false} AllStore(first: seq<Entry>, notes: seq<Note>, maxTotal: nat, n: nat) returns (run: seq<World>, steps: seq<Action>)
    requires n <= |notes| && FreshNames(first, notes) && EachFits(first, notes, maxTotal)
    ensures IsRace(run, steps, first, maxTotal, |notes|) && PastTheCheck(run[|steps|].calls) == {}
    ensures run[|steps|].entries == first + Files(notes)[..n] && |run[|steps|].calls| == |notes|
    ensures forall c: nat | n <= c < |notes| :: IsReady(run[|steps|].calls[c], notes[c], first)
    ensures forall c: nat | c < n :: run[|steps|].calls[c].stage == Finished(Stored) && run[|steps|].calls[c].note == notes[c]
  {
    if n == 0 {
      run, steps := AllScan(first, notes, maxTotal, |notes|);
      assert Files(notes)[..0] == [];
    } else {
      run, steps := AllStore(first, notes, maxTotal, n - 1);
      NameIsFree(first, notes, n - 1);
      run, steps := OneStores(run, steps, first, maxTotal, |notes|, n - 1, notes[n - 1]);
      assert Files(notes)[..n] == Files(notes)[..n - 1] + [Files(notes)[n - 1]];
    }
  }

  lemma NameIsFree(first: seq<Entry>, notes: seq<Note>, n: nat)
    requires n < |notes| && FreshNames(first, notes)
    ensures !HasName(first + Files(notes)[..n], notes[n].name(0))
  {
    var all := first + Files(notes)[..n];
    forall i | 0 <= i < |all| ensures all[i].name != notes[n].name(0) {
      if i < |first| {
        assert all[i] == first[i];
      } else {
        assert all[i].name == notes[i - |first|].name(0);
      }
    }
  }

  function SumSizes(notes: seq<Note>): (r: nat) {
    if notes == [] then 0 else SumSizes(notes[..|notes| - 1]) + |notes[|notes| - 1].contents|
  }

  lemma {:induction false} FilesAdd(first: seq<Entry>, notes: seq<Note>)
    ensures TotalSize(first + Files(notes)) == TotalSize(first) + SumSizes(notes)
  {
    if notes == [] {
      assert first + Files(notes) == first;
    } else {
      var n := |notes| - 1;
      var all := first + Files(notes);
      FilesAdd(first, notes[..n]);
      assert all[..|all| - 1] == first + Files(notes[..n]);
    }
  }

  lemma {:induction false} UpTo(n: nat) returns (s: set<nat>)
    ensures |s| == n && forall x: nat :: x in s <==> x < n
  {
    if n == 0 {
      s := {};
    } else {
      s := UpTo(n - 1);
      s := s + {n - 1};
    }
  }

  lemma FlightIsWithinCalls(run: seq<World>, k: nat)
    requires forall i | 0 <= i < |run| :: |run[i].calls| <= k
    ensures AtMostInFlight(run, k)
  {
    forall i | 0 <= i < |run| ensures |InFlight(run[i].calls)| <= k {
      var all := UpTo(|run[i].calls|);
      SubsetSize(InFlight(run[i].calls), all);
    }
  }

  /** A run in which every note is stored, with no more calls in flight than notes and never more than one past the check. */
  ghost predicate StoresAll(first: seq<Entry>, notes: seq<Note>, maxTotal: nat, run: seq<World>, steps: seq<Action>) {
    && IsRun(run, steps, maxTotal) && run[0].entries == first && AtMostInFlight(run, |notes|)
    && (forall i | 0 <= i < |run| :: |PastTheCheck(run[i].calls)| <= 1)
    && run[|steps|].entries == first + Files(notes) && TotalSize(run[|steps|].entries) == TotalSize(first) + SumSizes(notes)
    && |run[|steps|].calls| == |notes|
    && forall c | 0 <= c < |notes| :: run[|steps|].calls[c].stage == Finished(Stored) && run[|steps|].calls[c].note == notes[c]
  }

  /**
    Any notes that each fit beside what is there can all be stored, each counting only that: from every directory
    and for every quota some run ends with the directory grown by all of them.
   */
  lemma EveryExcessIsReached(first: seq<Entry>, notes: seq<Note>, maxTotal: nat)
    requires FreshNames(first, notes) && EachFits(first, notes, maxTotal)
    ensures exists run, steps :: StoresAll(first, notes, maxTotal, run, steps)
  {
    var run, steps := AllStore(first, notes, maxTotal, |notes|);
    assert Files(notes)[..|notes|] == Files(notes);
    FilesAdd(first, notes);
    FlightIsWithinCalls(run, |notes|);
    assert StoresAll(first, notes, maxTotal, run, steps);
  }

  // ---- Notes as the server names them ----

  /** Notes of one title filed at successive seconds. */
  ghost predicate AreFiled(notes: seq<Note>, seconds: int, title: string) {
    && HasFourDigitYear(seconds) && HasFourDigitYear(seconds + |notes|)
    && forall c | 0 <= c < |notes| :: notes[c] == NoteFor(seconds + c, title, notes[c].contents)
  }

  lemma FirstName(s: int, title: string, x: Bytes)
    ensures NoteFor(s, title, x).name(0) == FileTime(s) + ("-" + Slug(title) + Suffix(0) + ".md")
  {
  }

  lemma DifferentTimes(s: int, t: int)
    requires HasFourDigitYear(s) && HasFourDigitYear(t) && s != t
    ensures |FileTime(s)| == |FileTime(t)| && FileTime(s) != FileTime(t)
  {
    FileTimeLength(s);
    FileTimeLength(t);
    FileNamesSortByTime(s, t, "", "");
  }

  lemma SameLengthPrefixes(a: string, b: string, rest: string)
    requires |a| == |b| && a != b
    ensures a + rest != b + rest
  {
    assert (a + rest)[..|a|] == a && (b + rest)[..|b|] == b;
  }

  lemma DifferentSecondsDifferentNames(s: int, t: int, title: string, a: Note, b: Note)
    requires HasFourDigitYear(s) && HasFourDigitYear(t) && s != t
    requires a == NoteFor(s, title, a.contents) && b == NoteFor(t, title, b.contents)
    ensures a.name(0) != b.name(0)
  {
    FirstName(s, title, a.contents);
    FirstName(t, title, b.contents);
    DifferentTimes(s, t);
    SameLengthPrefixes(FileTime(s), FileTime(t), "-" + Slug(title) + Suffix(0) + ".md");
  }

  lemma FiledNamesDiffer(notes: seq<Note>, seconds: int, title: string, c: nat, d: nat)
    requires AreFiled(notes, seconds, title) && c < d < |notes|
    ensures notes[c].name(0) != notes[d].name(0)
  {
    DifferentSecondsDifferentNames(seconds + c, seconds + d, title, notes[c], notes[d]);
  }

  /** With the names the server generates: notes filed in different seconds reach every excess. */
  lemma ServerNotesReachEveryExcess(first: seq<Entry>, notes: seq<Note>, seconds: int, title: string, maxTotal: nat)
    requires AreFiled(notes, seconds, title) && EachFits(first, notes, maxTotal)
    requires forall c | 0 <= c < |notes| :: !HasName(first, notes[c].name(0))
    ensures exists run, steps :: StoresAll(first, notes, maxTotal, run, steps)
  {
    forall c, d | 0 <= c < d < |notes| ensures notes[c].name(0) != notes[d].name(0) {
      FiledNamesDiffer(notes, seconds, title, c, d);
    }
    EveryExcessIsReached(first, notes, maxTotal);
  }

  // ---- The bound is exact ----

  /** A run the bound speaks of, up to its state `i`. */
  ghost predicate Complies(run: seq<World>, steps: seq<Action>, maxTotal: nat, k: nat, most: nat, i: nat) {
    && IsRun(run, steps, maxTotal) && i < |run| && TotalSize(run[0].entries) <= maxTotal
    && AtMostInFlight(run, k) && NotesFit(run[i].calls, most)
  }

  ghost predicate AlwaysWithin(maxTotal: nat, k: nat, most: nat, bound: nat) {
    forall run: seq<World>, steps: seq<Action>, i: nat | Complies(run, steps, maxTotal, k, most, i) :: TotalSize(run[i].entries) <= bound
  }

  function Filled(n: nat): (r: Bytes) {
    seq(n, i requires 0 <= i < n => 0)
  }

  function NamedByLength(c: nat, contents: Bytes): (r: Note) {
    Note((attempt: nat) => seq(c, i requires 0 <= i < c => 'a'), contents)
  }

  lemma {:induction false} SumOfEqualSizes(notes: seq<Note>, most: nat)
    requires forall c | 0 <= c < |notes| :: |notes[c].contents| == most
    ensures SumSizes(notes) == |notes| * most
  {
    if notes != [] {
      var n := |notes| - 1;
      SumOfEqualSizes(notes[..n], most);
      assert |notes| * most == n * most + most;
    }
  }

  function Crowd(k: nat, most: nat): (r: seq<Note>) {
    seq(k, c requires 0 <= c < k => NamedByLength(c, Filled(most)))
  }

  lemma CrowdIsFresh(e: Entry, k: nat, most: nat)
    requires e.name == "b"
    ensures FreshNames([e], Crowd(k, most))
  {
    var notes := Crowd(k, most);
    forall c | 0 <= c < k ensures !HasName([e], notes[c].name(0)) {
      if c > 0 { assert notes[c].name(0)[0] == 'a'; }
    }
    forall c, d | 0 <= c < d < k ensures notes[c].name(0) != notes[d].name(0) {
      assert |notes[c].name(0)| == c && |notes[d].name(0)| == d;
    }
  }

  lemma CrowdSize(k: nat, most: nat)
    requires k > 0
    ensures SumSizes(Crowd(k, most)) == (k - 1) * most + most
  {
    SumOfEqualSizes(Crowd(k, most), most);
    assert k * most == (k - 1) * most + most;
  }

  /** One file that leaves room for one note of `most` bytes, and `k` notes that each take that room. */
  lemma WorstRun(maxTotal: nat, k: nat, most: nat) returns (run: seq<World>, steps: seq<Action>)
    requires 0 < k && most <= maxTotal
    ensures Complies(run, steps, maxTotal, k, most, |steps|)
    ensures TotalSize(run[|steps|].entries) == maxTotal + (k - 1) * most
  {
    var first := [Entry("b", true, Filled(maxTotal - most))];
    assert first[..0] == [];
    assert TotalSize(first) == maxTotal - most;
    CrowdIsFresh(first[0], k, most);
    CrowdSize(k, most);
    EveryExcessIsReached(first, Crowd(k, most), maxTotal);
    run, steps :| StoresAll(first, Crowd(k, most), maxTotal, run, steps);
  }

  /**
    With at most `k` calls in flight and notes of at most `most` bytes, which a note alone in the directory must be
    able to be, the quota is never exceeded by more than `excess` if and only if `excess` covers `k - 1` notes.
   */
  lemma QuotaBoundIsExact(maxTotal: nat, k: nat, most: nat, excess: nat)
    requires 0 < k && most <= maxTotal < U64_MAX
    ensures AlwaysWithin(maxTotal, k, most, maxTotal + excess) <==> (k - 1) * most <= excess
  {
    if (k - 1) * most <= excess {
      forall run: seq<World>, steps: seq<Action>, i: nat | Complies(run, steps, maxTotal, k, most, i)
        ensures TotalSize(run[i].entries) <= maxTotal + excess
      {
        QuotaHolds(run, steps, maxTotal, k, most, i);
      }
    } else {
      var run, steps := WorstRun(maxTotal, k, most);
      assert Complies(run, steps, maxTotal, k, most, |steps|);
    }
  }
}
