/** The inbox directory and `create_note` (src/inbox.rs), for one call at a time; QuotaRace has overlapping calls. */
module InboxStore {
  import opened Common
  import opened Text
  import Calendar
  import opened Timestamps
  import opened NoteNames
  import FrontMatter
  import Utf8

  const INBOX_ID_PREFIX: string := "99_inbox"
  const MAX_TITLE_CHARS: nat := 200
  const NOTE_SOURCE: string := "mcp:append_note"

  datatype InboxError =
    | InvalidTitle | InvalidBody | InvalidOccurred | NoteTooLarge | QuotaExceeded | NameExhausted
    | InvalidFileName | Io

  datatype CreatedNote = CreatedNote(id: string, bytes: nat, created: string)

  datatype NoteFrontMatter = NoteFrontMatter(title: string, created: string, occurred: Option<string>, source: string, fingerprint: string)

  // ---- Input checks ----

  function TrimStart(s: string): (r: string) {
    if s != "" && IsWhitespace(s[0]) then TrimStart(s[1..]) else s
  }

  function TrimEnd(s: string): (r: string) {
    if s != "" && IsWhitespace(s[|s| - 1]) then TrimEnd(s[..|s| - 1]) else s
  }

  /** `str::trim`. */
  function Trim(s: string): (r: string) {
    TrimEnd(TrimStart(s))
  }

  /** `char::is_control`. */
  predicate IsControl(c: char) {
    var n := c as int;
    n <= 0x1F || 0x7F <= n <= 0x9F
  }

  function NormalizeTitle(title: string): (r: Option<string>) {
    var t := Trim(title);
    if t == "" || |t| > MAX_TITLE_CHARS then None
    else if exists i | 0 <= i < |t| :: IsControl(t[i]) then None
    else Some(t)
  }

  function ValidateBody(body: string, maxNoteBytes: nat): (r: Option<InboxError>) {
    if Trim(body) == "" || '\0' in body then Some(InvalidBody)
    else if ByteLen(body) > maxNoteBytes then Some(NoteTooLarge)
    else None
  }

  /** `validate_occurred`: the shape `YYYY-MM-DD`, a month from 1 to 12 and a day from 1 to 31. */
  predicate ValidOccurred(value: string) {
    && |value| == 10 && value[4] == '-' && value[7] == '-'
    && AllDigits(value[0..4]) && AllDigits(value[5..7]) && AllDigits(value[8..10])
    && 1 <= ValueOf(value[5..7]) <= 12 && 1 <= ValueOf(value[8..10]) <= 31
  }

  function OccurredDate(value: string): (r: Calendar.Date)
    requires ValidOccurred(value)
  {
    Calendar.Date(ValueOf(value[0..4]), ValueOf(value[5..7]), ValueOf(value[8..10]))
  }

  /** An accepted date is a date of the calendar exactly when its day is within its month; the code does not check that. */
  lemma OccurredIsADateExactlyWithinItsMonth(value: string)
    requires ValidOccurred(value)
    ensures Calendar.IsValid(OccurredDate(value)) <==>
            ValueOf(value[8..10]) <= Calendar.DaysInMonth(ValueOf(value[0..4]), ValueOf(value[5..7]))
    ensures ValidOccurred("2026-02-31") && !Calendar.IsValid(OccurredDate("2026-02-31"))
  {
    var v := "2026-02-31";
    assert v[0..4] == "2026" && v[5..7] == "02" && v[8..10] == "31";
    TwoDigits('0', '2');
    TwoDigits('3', '1');
  }

  lemma TwoDigits(a: char, b: char)
    ensures ValueOf([a, b]) == 10 * DigitValue(a) + DigitValue(b)
  {
    assert [a, b][..1] == [a] && [a][..0] == [];
    assert ValueOf([a]) == DigitValue(a);
  }

  // ---- The input checks, by what they ask of each field ----

  predicate IsBlank(s: string) {
    forall c | c in s :: IsWhitespace(c)
  }

  /** Trimming takes whitespace from both ends, all of it and nothing else. */
  lemma TrimIs(s: string) returns (before: string, after: string)
    ensures s == before + Trim(s) + after && IsBlank(before) && IsBlank(after)
    ensures Trim(s) != "" ==> !IsWhitespace(Trim(s)[0]) && !IsWhitespace(Trim(s)[|Trim(s)| - 1])
  {
    before := TrimStartIs(s);
    after := TrimEndIs(TrimStart(s));
    assert TrimStart(s) != "" && Trim(s) != "" ==> Trim(s)[0] == TrimStart(s)[0];
  }

  lemma {:induction false} TrimStartIs(s: string) returns (before: string)
    ensures s == before + TrimStart(s) && IsBlank(before) && (TrimStart(s) != "" ==> !IsWhitespace(TrimStart(s)[0]))
  {
    if s != "" && IsWhitespace(s[0]) {
      before := TrimStartIs(s[1..]);
      before := [s[0]] + before;
    } else {
      before := "";
    }
  }

  lemma {:induction false} TrimEndIs(s: string) returns (after: string)
    ensures s == TrimEnd(s) + after && IsBlank(after) && (TrimEnd(s) != "" ==> !IsWhitespace(TrimEnd(s)[|TrimEnd(s)| - 1]))
  {
    if s != "" && IsWhitespace(s[|s| - 1]) {
      after := TrimEndIs(s[..|s| - 1]);
      after := after + [s[|s| - 1]];
      assert s == s[..|s| - 1] + [s[|s| - 1]];
    } else {
      after := "";
    }
  }

  lemma TrimsToNothing(s: string)
    ensures Trim(s) == "" <==> IsBlank(s)
  {
    var before, after := TrimIs(s);
    if Trim(s) != "" { assert Trim(s)[0] in s; }
    assert forall c | c in s :: c in before || c in Trim(s) || c in after;
  }

  /** A title of 1 to 200 characters once trimmed, none of them a control character. */
  predicate TitleIsFine(title: string) {
    0 < |Trim(title)| <= 200 && forall c | c in Trim(title) :: 0x20 <= c as int < 0x7F || 0xA0 <= c as int
  }

  lemma TitlesExactly(title: string)
    ensures NormalizeTitle(title) == if TitleIsFine(title) then Some(Trim(title)) else None
  {
    var t := Trim(title);
    assert (exists i | 0 <= i < |t| :: IsControl(t[i])) <==> exists c | c in t :: IsControl(c) by {
      forall c | c in t && IsControl(c) ensures exists i | 0 <= i < |t| :: IsControl(t[i]) {
        var i :| 0 <= i < |t| && t[i] == c;
      }
      forall i | 0 <= i < |t| && IsControl(t[i]) ensures exists c | c in t :: IsControl(c) {
        assert t[i] in t;
      }
    }
  }

  predicate BodyIsFine(body: string) {
    !IsBlank(body) && '\0' !in body
  }

  lemma BodiesExactly(body: string, maxNoteBytes: nat)
    ensures ValidateBody(body, maxNoteBytes) ==
            if !BodyIsFine(body) then Some(InvalidBody) else if ByteLen(body) > maxNoteBytes then Some(NoteTooLarge) else None
  {
    TrimsToNothing(body);
  }

  /** The text of a year, a month of twelve and a day of at most 31. */
  predicate IsDateText(value: string, y: nat, m: nat, d: nat) {
    y <= 9_999 && 1 <= m <= 12 && 1 <= d <= 31 && value == Fixed(y, 4) + "-" + Fixed(m, 2) + "-" + Fixed(d, 2)
  }

  predicate OccurredIsFine(occurred: Option<string>) {
    occurred.Some? ==> exists y: nat, m: nat, d: nat | y <= 9_999 && m <= 12 && d <= 31 :: IsDateText(occurred.value, y, m, d)
  }

  lemma DatesExactly(value: string)
    ensures ValidOccurred(value) <==> exists y: nat, m: nat, d: nat :: IsDateText(value, y, m, d)
  {
    if ValidOccurred(value) { ReadsAsDate(value); }
    forall y: nat, m: nat, d: nat | IsDateText(value, y, m, d) ensures ValidOccurred(value) {
      DateTextIsAccepted(value, y, m, d);
    }
  }

  lemma OccurredExactly(value: string)
    ensures ValidOccurred(value) <==> OccurredIsFine(Some(value))
  {
    DatesExactly(value);
  }

  lemma ReadsAsDate(value: string)
    requires ValidOccurred(value)
    ensures exists y: nat, m: nat, d: nat :: IsDateText(value, y, m, d)
  {
    JoinsAgain(value);
    DigitsAreDate(value, value[0..4], value[5..7], value[8..10]);
  }

  lemma JoinsAgain(value: string)
    requires |value| == 10 && value[4] == '-' && value[7] == '-'
    ensures value == value[0..4] + "-" + value[5..7] + "-" + value[8..10]
  {
  }

  lemma DigitsAreDate(value: string, y: string, m: string, d: string)
    requires AllDigits(y) && AllDigits(m) && AllDigits(d) && |y| == 4 && |m| == 2 && |d| == 2
    requires 1 <= ValueOf(m) <= 12 && 1 <= ValueOf(d) <= 31 && value == y + "-" + m + "-" + d
    ensures exists y: nat, m: nat, d: nat :: IsDateText(value, y, m, d)
  {
    Widths();
    DigitsAreFixed(y);
    DigitsAreFixed(m);
    DigitsAreFixed(d);
    assert IsDateText(value, ValueOf(y), ValueOf(m), ValueOf(d));
  }

  lemma DateTextIsAccepted(value: string, y: nat, m: nat, d: nat)
    requires IsDateText(value, y, m, d)
    ensures ValidOccurred(value)
  {
    Widths();
    FixedValue(y, 4);
    FixedValue(m, 2);
    FixedValue(d, 2);
    SplitDate(value, Fixed(y, 4), Fixed(m, 2), Fixed(d, 2));
  }

  lemma SplitDate(value: string, y: string, m: string, d: string)
    requires |y| == 4 && |m| == 2 && |d| == 2 && value == y + "-" + m + "-" + d
    ensures |value| == 10 && value[4] == '-' && value[7] == '-' && value[0..4] == y && value[5..7] == m && value[8..10] == d
  {
  }

  /** From disk and back: a stored note read whole, decoded and split is the front matter and body that were rendered. */
  lemma StoredNoteReadsBack(front: string, body: string, maxBytes: nat)
    requires FrontMatter.Find(front, FrontMatter.FENCE).None? && ByteLen(FrontMatter.NoteText(front, body)) <= maxBytes
    ensures var file := Utf8.Encode(FrontMatter.NoteText(front, body));
            && Utf8.LimitedRead(file, maxBytes) == (Some(file), false) && Utf8.IsValid(file)
            && FrontMatter.Split(Utf8.Decode(file)) == Some((front, "\n" + FrontMatter.WithFinalNewline(body)))
  {
    var text := FrontMatter.NoteText(front, body);
    Utf8.EncodeIsValid(text);
    Utf8.DecodeUndoesEncode(text);
    FrontMatter.SplitUndoesRender(front, body);
  }

  lemma FinalNewline(body: string)
    ensures "\n" + FrontMatter.WithFinalNewline(body) == "\n" + body + if body != "" && body[|body| - 1] != '\n' then "\n" else ""
  {
  }

  // ---- The directory ----

  /** A directory entry; only regular files count toward the quota. */
  datatype Entry = Entry(name: string, regular: bool, contents: Bytes)

  function EntrySize(e: Entry): (r: nat) {
    if e.regular then |e.contents| else 0
  }

  function TotalSize(entries: seq<Entry>): (r: nat) {
    if entries == [] then 0 else TotalSize(entries[..|entries| - 1]) + EntrySize(entries[|entries| - 1])
  }

  predicate HasName(entries: seq<Entry>, name: string) {
    exists i | 0 <= i < |entries| :: entries[i].name == name
  }

  function Saturated(n: nat): (r: nat) {
    if n > U64_MAX then U64_MAX else n
  }

  /** How the system calls of one `create_note` turn out. */
  datatype NoteIo = NoteIo(scan: bool, open: bool, write: bool, written: nat, sync: bool) {
    predicate Fine() {
      scan && open && write && sync
    }
  }

  /** The input of one call. */
  datatype NoteRequest = NoteRequest(title: string, body: string, occurred: Option<string>, fingerprint: string, seconds: int)

  class InboxStore {
    const maxNoteBytes: nat
    const maxTotalBytes: nat
    /** `serde_yaml`; `None` when serialization fails. */
    const toYaml: NoteFrontMatter -> Option<string>
    /** The directory, oldest entry first. */
    var entries: seq<Entry>

    predicate Valid()
      reads this`entries
    {
      forall i, j | 0 <= i < j < |entries| :: entries[i].name != entries[j].name
    }

    constructor (maxNoteBytes: nat, maxTotalBytes: nat, toYaml: NoteFrontMatter -> Option<string>, entries: seq<Entry>)
      requires forall i, j | 0 <= i < j < |entries| :: entries[i].name != entries[j].name
      ensures Valid() && this.entries == entries
      ensures this.maxNoteBytes == maxNoteBytes && this.maxTotalBytes == maxTotalBytes && this.toYaml == toYaml
    {
      this.maxNoteBytes, this.maxTotalBytes, this.toYaml, this.entries := maxNoteBytes, maxTotalBytes, toYaml, entries;
    }

    method UsedBytes(io: NoteIo) returns (r: Option<nat>)
      ensures r == if io.scan then Some(Saturated(TotalSize(entries))) else None
    {
      if !io.scan { return None; }
      var total := 0;
      for i := 0 to |entries|
        invariant total == Saturated(TotalSize(entries[..i]))
      {
        assert entries[..i + 1][..i] == entries[..i];
        total := SaturatingAdd(total, EntrySize(entries[i]));
      }
      assert entries[..|entries|] == entries;
      return Some(total);
    }

    /** Atomic create-if-absent: `Success(false)` when the name is taken. */
    method CreateExclusive(name: string, io: NoteIo) returns (r: Result<bool, InboxError>)
      requires Valid()
      modifies this`entries
      ensures Valid()
      ensures r == if !IsSafeFileName(name) then Failure(InvalidFileName)
                   else if HasName(old(entries), name) then Success(false)
                   else if io.open then Success(true) else Failure(Io)
      ensures entries == if r == Success(true) then old(entries) + [Entry(name, true, [])] else old(entries)
    {
      if !IsSafeFileName(name) { return Failure(InvalidFileName); }
      if HasName(entries, name) { return Success(false); }
      if !io.open { return Failure(Io); }
      entries := entries + [Entry(name, true, [])];
      return Success(true);
    }

    /** The text a request is stored as, or why it is refused before the directory is looked at. */
    function Render(q: NoteRequest): (r: Result<string, InboxError>) {
      match NormalizeTitle(q.title)
      case None => Failure(InvalidTitle)
      case Some(title) =>
        match ValidateBody(q.body, maxNoteBytes)
        case Some(e) => Failure(e)
        case None =>
          if q.occurred.Some? && !ValidOccurred(q.occurred.value) then Failure(InvalidOccurred)
          else
            match toYaml(NoteFrontMatter(title, Rfc3339(q.seconds), q.occurred, NOTE_SOURCE, q.fingerprint))
            case None => Failure(InvalidTitle)
            case Some(yaml) =>
              if FrontMatter.Find(FrontMatter.FrontMatterOf(yaml), FrontMatter.FENCE).Some? then Failure(InvalidTitle)
              else Success(FrontMatter.NoteText(FrontMatter.FrontMatterOf(yaml), q.body))
    }

    /** What the serializer makes of a request. */
    function Yaml(q: NoteRequest): (r: Option<string>) {
      toYaml(NoteFrontMatter(Trim(q.title), Rfc3339(q.seconds), q.occurred, "mcp:append_note", q.fingerprint))
    }

    predicate YamlIsFine(q: NoteRequest) {
      Yaml(q).Some? && FrontMatter.Find(FrontMatter.FrontMatterOf(Yaml(q).value), "\n---").None?
    }

    predicate FieldsAreFine(q: NoteRequest) {
      TitleIsFine(q.title) && BodyIsFine(q.body) && ByteLen(q.body) <= maxNoteBytes && OccurredIsFine(q.occurred)
    }

    /** Every refusal before the directory is looked at, in the order of the checks, and what is stored otherwise. */
    lemma RendersExactly(q: NoteRequest)
      ensures Render(q) ==
              if !TitleIsFine(q.title) then Failure(InvalidTitle)
              else if !BodyIsFine(q.body) then Failure(InvalidBody)
              else if ByteLen(q.body) > maxNoteBytes then Failure(NoteTooLarge)
              else if !OccurredIsFine(q.occurred) then Failure(InvalidOccurred)
              else if !YamlIsFine(q) then Failure(InvalidTitle)
              else Success(FrontMatter.NoteText(FrontMatter.FrontMatterOf(Yaml(q).value), q.body))
    {
      TitlesExactly(q.title);
      BodiesExactly(q.body, maxNoteBytes);
      if q.occurred.Some? { OccurredExactly(q.occurred.value); }
    }

    /** The entry reads back as this request's front matter and body. */
    ghost predicate HoldsNote(e: Entry, q: NoteRequest) {
      && e.regular && Utf8.IsValid(e.contents) && YamlIsFine(q)
      && FrontMatter.Split(Utf8.Decode(e.contents)) ==
         Some((FrontMatter.FrontMatterOf(Yaml(q).value),
               "\n" + q.body + if q.body != "" && q.body[|q.body| - 1] != '\n' then "\n" else ""))
    }

    lemma StoredHoldsNote(before: seq<Entry>, after: seq<Entry>, q: NoteRequest, note: CreatedNote)
      requires YamlIsFine(q)
      requires Stored(before, after, q, Utf8.Encode(FrontMatter.NoteText(FrontMatter.FrontMatterOf(Yaml(q).value), q.body)), note)
      ensures Keeps(before, after, q, note)
    {
      var front := FrontMatter.FrontMatterOf(Yaml(q).value);
      var contents := Utf8.Encode(FrontMatter.NoteText(front, q.body));
      var a: nat :| Appended(before, after, q, a, contents) && note == Receipt(q, a, |contents|);
      ContentsHoldNote(NameOf(q, a), q, contents);
      FirstFreeIsNamed(before, q, a);
      KeepsFrom(before, after, q, Entry(NameOf(q, a), true, contents), note);
    }

    lemma FirstFreeIsNamed(before: seq<Entry>, q: NoteRequest, a: nat)
      requires TriedTaken(before, q, a) && !HasName(before, NameOf(q, a))
      ensures IsNamedAt(before, q, a, NameOf(q, a))
    {
      forall b: nat | b < a ensures HasName(before, NoteFileName(q.seconds, Slug(Trim(q.title)), b)) {
        assert HasName(before, NameOf(q, b));
      }
    }

    lemma KeepsFrom(before: seq<Entry>, after: seq<Entry>, q: NoteRequest, e: Entry, note: CreatedNote)
      requires after == before + [e] && HoldsNote(e, q) && IsNamed(before, q, e.name)
      requires note == CreatedNote(INBOX_ID_PREFIX + "/" + e.name, |e.contents|, Rfc3339(q.seconds))
      ensures Keeps(before, after, q, note)
    {
      assert after[|before|] == e;
    }

    lemma ContentsHoldNote(name: string, q: NoteRequest, contents: Bytes)
      requires YamlIsFine(q) && contents == Utf8.Encode(FrontMatter.NoteText(FrontMatter.FrontMatterOf(Yaml(q).value), q.body))
      ensures HoldsNote(Entry(name, true, contents), q)
    {
      var front := FrontMatter.FrontMatterOf(Yaml(q).value);
      StoredNoteReadsBack(front, q.body, ByteLen(FrontMatter.NoteText(front, q.body)));
      FinalNewline(q.body);
    }

    /** One entry more, holding the note, and a receipt for that entry. */
    ghost predicate Keeps(before: seq<Entry>, after: seq<Entry>, q: NoteRequest, note: CreatedNote) {
      && |after| == |before| + 1 && after[..|before|] == before
      && var e := after[|before|];
      && HoldsNote(e, q) && note == CreatedNote("99_inbox/" + e.name, |e.contents|, Rfc3339(q.seconds))
      && IsNamed(before, q, e.name)
    }

    ghost predicate IsNamed(before: seq<Entry>, q: NoteRequest, name: string) {
      exists a: nat :: a < 64 && IsNamedAt(before, q, a, name)
    }

    /** The name for the time and the title at the first attempt at which it is free. */
    ghost predicate IsNamedAt(before: seq<Entry>, q: NoteRequest, a: nat, name: string) {
      && name == NoteFileName(q.seconds, Slug(Trim(q.title)), a) && !HasName(before, name)
      && forall b: nat | b < a :: HasName(before, NoteFileName(q.seconds, Slug(Trim(q.title)), b))
    }

    function NameOf(q: NoteRequest, attempt: nat): (r: string) {
      NoteFileName(q.seconds, Slug(Trim(q.title)), attempt)
    }

    predicate TriedTaken(before: seq<Entry>, q: NoteRequest, attempts: nat) {
      forall a: nat | a < attempts :: HasName(before, NameOf(q, a))
    }

    /** The call stored `data` under the first free name, after everything that was there. */
    ghost predicate Appended(before: seq<Entry>, after: seq<Entry>, q: NoteRequest, a: nat, data: Bytes) {
      && a < MAX_NAME_ATTEMPTS && TriedTaken(before, q, a) && !HasName(before, NameOf(q, a))
      && after == before + [Entry(NameOf(q, a), true, data)]
    }

    ghost predicate Stored(before: seq<Entry>, after: seq<Entry>, q: NoteRequest, contents: Bytes, note: CreatedNote) {
      exists a: nat :: Appended(before, after, q, a, contents) && note == Receipt(q, a, |contents|)
    }

    ghost predicate LeftPart(before: seq<Entry>, after: seq<Entry>, q: NoteRequest, contents: Bytes) {
      exists a: nat, n: nat :: n <= |contents| && Appended(before, after, q, a, contents[..n])
    }

    function Receipt(q: NoteRequest, attempt: nat, size: nat): (r: CreatedNote) {
      CreatedNote(INBOX_ID_PREFIX + "/" + NameOf(q, attempt), size, Rfc3339(q.seconds))
    }

    /** One turn of the retry loop: create, write, sync. `Success(false)` when the name is taken. */
    method WriteNote(name: string, contents: Bytes, io: NoteIo) returns (r: Result<bool, InboxError>)
      requires Valid() && IsSafeFileName(name)
      modifies this`entries
      ensures Valid()
      ensures r == Success(false) <==> HasName(old(entries), name)
      ensures r == Success(false) ==> entries == old(entries)
      ensures r == Success(true) ==> entries == old(entries) + [Entry(name, true, contents)]
      ensures r.Failure? ==> !io.Fine() && r.error == Io && (entries == old(entries) || LeftPartOf(old(entries), entries, name, contents))
    {
      ghost var before := entries;
      r := CreateExclusive(name, io);
      if r == Success(true) {
        var n := if io.write || io.written >= |contents| then |contents| else io.written;
        assert contents[..|contents|] == contents;
        entries := entries[|entries| - 1 := Entry(name, true, contents[..n])];
        assert entries == before + [Entry(name, true, contents[..n])];
        if !io.write { return Failure(Io); }
        if !io.sync { return Failure(Io); }
      }
    }

    ghost predicate LeftPartOf(before: seq<Entry>, after: seq<Entry>, name: string, contents: Bytes) {
      exists n: nat :: n <= |contents| && after == before + [Entry(name, true, contents[..n])]
    }

    /** One turn of the loop for a name whose predecessors were all taken. */
    method Attempt(q: NoteRequest, attempt: nat, contents: Bytes, io: NoteIo) returns (r: Result<bool, InboxError>)
      requires Valid() && IsI64(q.seconds) && attempt < MAX_NAME_ATTEMPTS && TriedTaken(entries, q, attempt)
      modifies this`entries
      ensures Valid()
      ensures r == Success(false) <==> TriedTaken(old(entries), q, attempt + 1)
      ensures r == Success(false) ==> entries == old(entries)
      ensures r == Success(true) ==> Appended(old(entries), entries, q, attempt, contents)
      ensures r.Failure? ==> !io.Fine() && r.error == Io && (entries == old(entries) || LeftPart(old(entries), entries, q, contents))
    {
      ghost var before := entries;
      GeneratedNamesAreSafe(q.seconds, Trim(q.title), attempt);
      r := WriteNote(NameOf(q, attempt), contents, io);
      if r.Failure? && entries != before {
        ghost var n: nat :| n <= |contents| && entries == before + [Entry(NameOf(q, attempt), true, contents[..n])];
        assert Appended(before, entries, q, attempt, contents[..n]);
      }
    }

    lemma TakenForFewer(before: seq<Entry>, q: NoteRequest, a: nat, b: nat)
      requires a <= b
      ensures TriedTaken(before, q, b) ==> TriedTaken(before, q, a)
    {
    }

    /** The retry loop of `create_note`. */
    method Store(q: NoteRequest, contents: Bytes, io: NoteIo) returns (r: Result<CreatedNote, InboxError>)
      requires Valid() && IsI64(q.seconds)
      modifies this`entries
      ensures Valid()
      ensures r.Success? ==> Stored(old(entries), entries, q, contents, r.value)
      ensures r.Failure? ==> entries == old(entries) || (r.error == Io && LeftPart(old(entries), entries, q, contents))
      ensures r.Failure? ==> r.error == NameExhausted || (r.error == Io && !io.Fine())
      ensures r == Failure(NameExhausted) <==> TriedTaken(old(entries), q, MAX_NAME_ATTEMPTS)
    {
      ghost var before := entries;
      for attempt := 0 to MAX_NAME_ATTEMPTS
        invariant Valid() && entries == before
        invariant TriedTaken(before, q, attempt)
      {
        var written := Attempt(q, attempt, contents, io);
        TakenForFewer(before, q, attempt + 1, MAX_NAME_ATTEMPTS);
        if written.Failure? { return Failure(written.error); }
        if written.value { return Success(Receipt(q, attempt, |contents|)); }
      }
      return Failure(NameExhausted);
    }

    /** A call adds no more than its contents. */
    lemma AddedSize(before: seq<Entry>, after: seq<Entry>, q: NoteRequest, contents: Bytes)
      requires after == before || LeftPart(before, after, q, contents) || exists note :: Stored(before, after, q, contents, note)
      ensures after == before || TotalSize(after) <= TotalSize(before) + |contents|
    {
      if after != before {
        assert after[..|after| - 1] == before;
        assert contents[..|contents|] == contents;
      }
    }

    /**
      Entries are only ever appended, one per call at most. A success stores exactly the rendered text under the
      first free name; a write that fails leaves a prefix of it there; any other failure leaves the directory
      alone. A quota below the largest u64 holds after every call that found it holding.
     */
    method CreateNote(q: NoteRequest, io: NoteIo) returns (r: Result<CreatedNote, InboxError>)
      requires Valid() && IsI64(q.seconds)
      modifies this`entries
      ensures Valid()
      ensures Render(q).Failure? ==> r == Failure(Render(q).error) && entries == old(entries)
      ensures Render(q).Success? ==> IsOutcome(old(entries), entries, q, Utf8.Encode(Render(q).value), io, r)
      ensures r != Failure(InvalidFileName)
      ensures maxTotalBytes < U64_MAX ==> TotalSize(entries) == TotalSize(old(entries)) || TotalSize(entries) <= maxTotalBytes
      ensures r == Failure(InvalidTitle) <==> !TitleIsFine(q.title) || (FieldsAreFine(q) && !YamlIsFine(q))
      ensures r == Failure(InvalidBody) <==> TitleIsFine(q.title) && !BodyIsFine(q.body)
      ensures r == Failure(NoteTooLarge) <==> TitleIsFine(q.title) && BodyIsFine(q.body) && ByteLen(q.body) > maxNoteBytes
      ensures r == Failure(InvalidOccurred) <==>
                TitleIsFine(q.title) && BodyIsFine(q.body) && ByteLen(q.body) <= maxNoteBytes && !OccurredIsFine(q.occurred)
      ensures r.Success? ==> Keeps(old(entries), entries, q, r.value)
      ensures r == Failure(NameExhausted) ==> forall a: nat | a < 64 :: HasName(old(entries), NoteFileName(q.seconds, Slug(Trim(q.title)), a))
    {
      ghost var before := entries;
      RendersExactly(q);
      var rendered := Render(q);
      if rendered.Failure? { return Failure(rendered.error); }
      r := StoreWithinQuota(q, Utf8.Encode(rendered.value), io);
      if r.Success? { StoredHoldsNote(before, entries, q, r.value); }
      if r == Failure(NameExhausted) { AllTaken(before, q); }
    }

    lemma AllTaken(before: seq<Entry>, q: NoteRequest)
      requires TriedTaken(before, q, MAX_NAME_ATTEMPTS)
      ensures forall a: nat | a < 64 :: HasName(before, NoteFileName(q.seconds, Slug(Trim(q.title)), a))
    {
      forall a: nat | a < 64 ensures HasName(before, NoteFileName(q.seconds, Slug(Trim(q.title)), a)) {
        assert HasName(before, NameOf(q, a));
      }
    }

    /** What becomes of a rendered note. */
    ghost predicate IsOutcome(before: seq<Entry>, after: seq<Entry>, q: NoteRequest, contents: Bytes, io: NoteIo, r: Result<CreatedNote, InboxError>) {
      && (r.Success? ==> Stored(before, after, q, contents, r.value))
      && (r.Failure? ==> after == before || (r.error == Io && LeftPart(before, after, q, contents)))
      && (io.scan && maxTotalBytes < U64_MAX ==> (r == Failure(QuotaExceeded) <==> TotalSize(before) + |contents| > maxTotalBytes))
      && (r == Failure(NameExhausted) ==> TriedTaken(before, q, MAX_NAME_ATTEMPTS))
      && (r == Failure(Io) ==> !io.Fine())
      && (r.Failure? ==> r.error == QuotaExceeded || r.error == NameExhausted || r.error == Io)
    }

    /** `create_note` from the quota check on. */
    method StoreWithinQuota(q: NoteRequest, contents: Bytes, io: NoteIo) returns (r: Result<CreatedNote, InboxError>)
      requires Valid() && IsI64(q.seconds)
      modifies this`entries
      ensures Valid()
      ensures IsOutcome(old(entries), entries, q, contents, io, r)
      ensures maxTotalBytes < U64_MAX ==> TotalSize(entries) == TotalSize(old(entries)) || TotalSize(entries) <= maxTotalBytes
    {
      ghost var before := entries;
      var used := UsedBytes(io);
      if used.None? { return Failure(Io); }
      if SaturatingAdd(used.value, |contents|) > maxTotalBytes {
        return Failure(QuotaExceeded);
      }
      r := Store(q, contents, io);
      AddedSize(before, entries, q, contents);
    }
  }
}
