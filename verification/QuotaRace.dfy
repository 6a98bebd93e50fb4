/**
  Overlapping calls of `create_note` (src/inbox.rs). A call looks at the directory one entry at a time, checks
  the quota, creates its file and writes it piece by piece; steps of different calls interleave freely. Nobody
  else writes to the directory. A crash of the process is every call in flight failing.
 */
module QuotaRace {
  import opened Common
  import opened NoteNames
  import opened InboxStore

  /** What a call stores, and the name it tries at each attempt. */
  datatype Note = Note(name: nat -> string, contents: Bytes)

  function NoteFor(seconds: int, title: string, contents: Bytes): (r: Note) {
    Note((attempt: nat) => NoteFileName(seconds, Slug(title), attempt), contents)
  }

  datatype Outcome = Stored | Refused(error: InboxError)

  datatype Stage =
    | Scanning(visited: set<nat>, total: nat)
    | Naming
    | Writing
    | Finished(outcome: Outcome)

  /**
    `slot` is the entry the call created and `written` what it holds so far. `floor` and `others` record the
    sizes of the directory's entries and the calls in flight when this call began.
   */
  datatype Call = Call(note: Note, stage: Stage, attempt: nat, slot: Option<nat>, written: nat, floor: seq<nat>, others: set<nat>) {
    function Size(): (r: nat) {
      |note.contents|
    }

    function File(): (r: Entry) {
      Entry(note.name(attempt), true, if written <= Size() then note.contents[..written] else note.contents)
    }
  }

  datatype World = World(entries: seq<Entry>, calls: seq<Call>)

  function Sizes(entries: seq<Entry>): (r: seq<nat>) {
    seq(|entries|, i requires 0 <= i < |entries| => EntrySize(entries[i]))
  }

  function InFlight(calls: seq<Call>): (r: set<nat>) {
    set c: nat | c < |calls| && !calls[c].stage.Finished?
  }

  // ---- Steps ----

  datatype Action =
    | Start(note: Note)
    | Visit(call: nat, entry: nat)
    | Check(call: nat)
    | Create(call: nat)
    | Write(call: nat, more: nat)
    | Sync(call: nat)
    | Fail(call: nat)

  /** A scan returns every entry that was there when it began; of later ones it may return some. */
  predicate ScanIsDone(call: Call)
    requires call.stage.Scanning?
  {
    forall i: nat | i < |call.floor| :: i in call.stage.visited
  }

  predicate Enabled(w: World, a: Action) {
    if a.Start? then true
    else
      a.call < |w.calls| &&
      var call := w.calls[a.call];
      match a
      case Visit(_, entry) => call.stage.Scanning? && entry < |w.entries| && entry !in call.stage.visited
      case Check(_) => call.stage.Scanning? && ScanIsDone(call)
      case Create(_) => call.stage.Naming?
      case Write(_, more) => call.stage.Writing? && call.slot.Some? && call.slot.value < |w.entries| && call.written + more <= call.Size()
      case Sync(_) => call.stage.Writing? && call.written == call.Size()
      case Fail(_) => !call.stage.Finished?
  }

  function Begin(w: World, note: Note): (r: Call) {
    Call(note, Scanning({}, 0), 0, None, 0, Sizes(w.entries), InFlight(w.calls))
  }

  function Checked(call: Call, maxTotal: nat): (r: Call)
    requires call.stage.Scanning?
  {
    if SaturatingAdd(call.stage.total, call.Size()) > maxTotal then call.(stage := Finished(Refused(QuotaExceeded)))
    else call.(stage := Naming)
  }

  function Created(entries: seq<Entry>, call: Call): (r: Call) {
    if call.attempt >= MAX_NAME_ATTEMPTS then call.(stage := Finished(Refused(NameExhausted)))
    else if HasName(entries, call.note.name(call.attempt)) then call.(attempt := call.attempt + 1)
    else call.(stage := Writing, slot := Some(|entries|))
  }

  function Next(entries: seq<Entry>, call: Call, a: Action, maxTotal: nat): (r: Call)
    requires a.Visit? ==> call.stage.Scanning? && a.entry < |entries|
    requires a.Check? ==> call.stage.Scanning?
  {
    match a
    case Start(_) => call
    case Visit(_, entry) => call.(stage := Scanning(call.stage.visited + {entry}, SaturatingAdd(call.stage.total, EntrySize(entries[entry]))))
    case Check(_) => Checked(call, maxTotal)
    case Create(_) => Created(entries, call)
    case Write(_, more) => call.(written := call.written + more)
    case Sync(_) => call.(stage := Finished(Stored))
    case Fail(_) => call.(stage := Finished(Refused(Io)))
  }

  function Step(w: World, a: Action, maxTotal: nat): (r: World)
    requires Enabled(w, a)
  {
    if a.Start? then w.(calls := w.calls + [Begin(w, a.note)])
    else
      var call := Next(w.entries, w.calls[a.call], a, maxTotal);
      var calls := w.calls[a.call := call];
      if a.Create? && call.stage.Writing? then World(w.entries + [call.File()], calls)
      else if a.Write? then World(w.entries[call.slot.value := call.File()], calls)
      else World(w.entries, calls)
  }

  /** A run from a directory nobody is working on. */
  ghost predicate IsRun(run: seq<World>, steps: seq<Action>, maxTotal: nat) {
    && |run| == |steps| + 1 && run[0].calls == []
    && forall i: nat | i < |steps| :: Goes(run, steps, maxTotal, i)
  }

  ghost predicate Goes(run: seq<World>, steps: seq<Action>, maxTotal: nat, i: nat)
    requires i < |steps| < |run|
  {
    Enabled(run[i], steps[i]) && run[i + 1] == Step(run[i], steps[i], maxTotal)
  }
}
