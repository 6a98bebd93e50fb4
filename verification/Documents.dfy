/** The knowledge base as each scope may see it (src/document.rs, `ScopeDirectories` in src/config.rs). */
module Documents {
  import opened Common
  import opened Text
  import opened DocumentIds
  import Lexicographic
  import Sorting
  import Utf8
  import FrontMatter
  import InboxStore
  import NoteNames

  // ---- Which directories a scope sees ----

  datatype ConfigError = InvalidPublicDirs | InvalidPrivateDirs | OverlappingScopeDirectories | InboxDirectoryInScope

  /** Two sets of names, each in its order of iteration. */
  datatype ScopeDirectories = ScopeDirectories(publicDirs: seq<string>, privateDirs: seq<string>)

  predicate IsSafeTopLevelDirectory(value: string) {
    && value != "" && ByteLen(value) <= 128 && value[0] != '.'
    && '/' !in value && '\\' !in value && '\0' !in value && ':' !in value
    && |Components(value)| == 1 && Components(value)[0].Normal?
  }

  predicate AllSafe(dirs: seq<string>) {
    forall d | d in dirs :: IsSafeTopLevelDirectory(d)
  }

  /** `ScopeDirectories::new`. */
  function NewDirectories(publicDirs: seq<string>, privateDirs: seq<string>): (r: Result<ScopeDirectories, ConfigError>) {
    if publicDirs == [] || !AllSafe(publicDirs) then Failure(InvalidPublicDirs)
    else if privateDirs == [] || !AllSafe(privateDirs) then Failure(InvalidPrivateDirs)
    else if exists d | d in publicDirs :: d in privateDirs then Failure(OverlappingScopeDirectories)
    else if InboxStore.INBOX_ID_PREFIX in publicDirs || InboxStore.INBOX_ID_PREFIX in privateDirs then Failure(InboxDirectoryInScope)
    else Success(ScopeDirectories(publicDirs, privateDirs))
  }

  predicate IsSound(dirs: ScopeDirectories) {
    NewDirectories(dirs.publicDirs, dirs.privateDirs) == Success(dirs)
  }

  function Roots(dirs: ScopeDirectories, scope: AccessScope): (r: seq<string>) {
    dirs.publicDirs + if scope == Private then dirs.privateDirs else []
  }

  predicate IsAllowed(dirs: ScopeDirectories, scope: AccessScope, id: string) {
    || id == "INDEX.md"
    || match TopLevel(id)
       case None => false
       case Some(d) => d in dirs.publicDirs || (scope == Private && d in dirs.privateDirs)
  }

  // ---- The tree ----

  /** `Special` is whatever is neither a regular file nor a directory, symbolic links included. */
  datatype Node = File(contents: Bytes, readable: bool) | Dir(entries: map<string, Node>) | Special

  /** The top level, and the ignore files outside the top-level directories that a walk consults. */
  datatype KnowledgeBase = KnowledgeBase(top: map<string, Node>, ignores: string)

  /** `openat2` beneath the root without following links; an empty or `.` piece stays where it is. */
  function Resolve(node: Node, pieces: seq<string>): (r: Option<Node>) {
    if pieces == [] then Some(node)
    else if !node.Dir? then None
    else if pieces[0] == "" || pieces[0] == "." then Resolve(node, pieces[1..])
    else if pieces[0] in node.entries then Resolve(node.entries[pieces[0]], pieces[1..])
    else None
  }

  function OpenRegularFile(kb: KnowledgeBase, id: string): (r: Result<Bytes, StoreError>) {
    match Resolve(Dir(kb.top), Pieces(id))
    case Some(File(contents, readable)) => if readable then Success(contents) else Failure(Io)
    case _ => Failure(NotFound)
  }

  /** One entry a directory walk yields, as the names below the directory it began in. */
  datatype WalkStep = Broken | Found(names: seq<string>, isFile: bool)

  datatype YamlFields = YamlFields(title: Option<string>, description: Option<string>, updated: Option<string>)

  datatype Metadata = Metadata(title: string, description: string, updated: Option<string>)

  datatype FetchedDocument = FetchedDocument(id: string, text: string, metadata: Metadata, truncated: bool)

  function JoinNames(top: string, names: seq<string>): (r: string)
    decreases |names|
  {
    if names == [] then top else top + "/" + JoinNames(names[0], names[1..])
  }

  function Append<T>(a: Result<seq<T>, StoreError>, b: Result<seq<T>, StoreError>): (r: Result<seq<T>, StoreError>) {
    if a.Failure? then a else if b.Failure? then b else Success(a.value + b.value)
  }

  /** The id an entry contributes, if it does. */
  function Keep(top: string, step: WalkStep): (r: Result<seq<string>, StoreError>) {
    match step
    case Broken => Failure(Io)
    case Found(names, isFile) =>
      if !isFile || ExtensionOf(if names == [] then top else names[|names| - 1]) != Some("md") then Success([])
      else
        match ParseId(JoinNames(top, names))
        case Failure(e) => Failure(e)
        case Success(id) => Success([id])
  }

  function KeepAll(top: string, steps: seq<WalkStep>): (r: Result<seq<string>, StoreError>) {
    if steps == [] then Success([]) else Append(KeepAll(top, steps[..|steps| - 1]), Keep(top, steps[|steps| - 1]))
  }

  predicate Less(a: string, b: string) {
    Lexicographic.Less(a, b)
  }

  function RootIndex(kb: KnowledgeBase): (r: seq<string>) {
    if "INDEX.md" in kb.top && kb.top["INDEX.md"].File? then ["INDEX.md"] else []
  }

  /** `walk` lists a directory, deterministically, from its contents and the ignore files; `parseYaml` reads front matter. */
  datatype DocumentStore = DocumentStore(
    dirs: ScopeDirectories,
    maxReadBytes: nat,
    maxSearchFileBytes: nat,
    walk: (string, Node, string) -> seq<WalkStep>,
    parseYaml: string -> Option<YamlFields>)
  {
    function IdsUnder(kb: KnowledgeBase, top: string): (r: Result<seq<string>, StoreError>) {
      if top in kb.top then KeepAll(top, walk(top, kb.top[top], kb.ignores)) else Success([])
    }

    function IdsUnderAll(kb: KnowledgeBase, roots: seq<string>): (r: Result<seq<string>, StoreError>) {
      if roots == [] then Success([]) else Append(IdsUnderAll(kb, roots[..|roots| - 1]), IdsUnder(kb, roots[|roots| - 1]))
    }

    /** Every listed id, as often as it is listed. */
    function Listed(kb: KnowledgeBase, scope: AccessScope): (r: Result<seq<string>, StoreError>) {
      Append(Success(RootIndex(kb)), IdsUnderAll(kb, Roots(dirs, scope)))
    }

    function Candidates(kb: KnowledgeBase, scope: AccessScope): (r: Result<seq<string>, StoreError>) {
      match Listed(kb, scope)
      case Failure(e) => Failure(e)
      case Success(ids) => Success(Sorting.Dedup(Sorting.Sort(Less, ids)))
    }

    method CandidateIds(kb: KnowledgeBase, scope: AccessScope) returns (r: Result<seq<string>, StoreError>)
      ensures r == Candidates(kb, scope)
      ensures r.Success? ==> Sorting.Ascending(Less, r.value) && forall id :: id in r.value <==> id in Listed(kb, scope).value
    {
      var ids: seq<string> := [];
      if "INDEX.md" in kb.top && kb.top["INDEX.md"].File? { ids := ids + ["INDEX.md"]; }
      var listed := PushRoots(kb, Roots(dirs, scope));
      if listed.Failure? { return listed; }
      ids := ids + listed.value;
      SortedOnce(ids);
      return Success(Sorting.Dedup(Sorting.Sort(Less, ids)));
    }

    method PushRoots(kb: KnowledgeBase, roots: seq<string>) returns (r: Result<seq<string>, StoreError>)
      ensures r == IdsUnderAll(kb, roots)
    {
      var ids: seq<string> := [];
      for i := 0 to |roots|
        invariant IdsUnderAll(kb, roots[..i]) == Success(ids)
      {
        assert roots[..i + 1][..i] == roots[..i];
        if roots[i] in kb.top {
          var below := PushAll(roots[i], walk(roots[i], kb.top[roots[i]], kb.ignores));
          if below.Failure? {
            FailureStays(kb, roots, i + 1);
            return below;
          }
          ids := ids + below.value;
        } else {
          assert ids + [] == ids;
        }
      }
      assert roots[..|roots|] == roots;
      return Success(ids);
    }

    method PushAll(top: string, walker: seq<WalkStep>) returns (r: Result<seq<string>, StoreError>)
      ensures r == KeepAll(top, walker)
    {
      var ids := [];
      for k := 0 to |walker|
        invariant KeepAll(top, walker[..k]) == Success(ids)
      {
        assert walker[..k + 1][..k] == walker[..k];
        var kept := Keep(top, walker[k]);
        if kept.Failure? {
          KeepFailureStays(top, walker, k + 1);
          return kept;
        }
        ids := ids + kept.value;
      }
      assert walker[..|walker|] == walker;
      return Success(ids);
    }

    lemma {:induction false} FailureStays(kb: KnowledgeBase, roots: seq<string>, i: nat)
      requires i <= |roots| && IdsUnderAll(kb, roots[..i]).Failure?
      ensures IdsUnderAll(kb, roots) == IdsUnderAll(kb, roots[..i])
      decreases |roots|
    {
      if i < |roots| {
        assert roots[..|roots| - 1][..i] == roots[..i];
        FailureStays(kb, roots[..|roots| - 1], i);
      } else {
        assert roots[..i] == roots;
      }
    }

    // ---- Reading ----

    function MetadataOf(text: string, id: string): (r: Metadata) {
      var fallback := match FileName(id) case None => "Untitled" case Some(name) => StemOf(name);
      match FrontMatter.Split(text)
      case None => Metadata(fallback, "", None)
      case Some(parts) =>
        match parseYaml(parts.0)
        case None => Metadata(fallback, "", None)
        case Some(f) =>
          Metadata(if f.title.Some? then f.title.value else fallback, if f.description.Some? then f.description.value else "", f.updated)
    }

    function ReadLimited(kb: KnowledgeBase, scope: AccessScope, id: string, maxBytes: nat): (r: Result<FetchedDocument, StoreError>) {
      if !IsAllowed(dirs, scope, id) then Failure(NotFound)
      else
        match OpenRegularFile(kb, id)
        case Failure(e) => Failure(e)
        case Success(file) => Returned(id, file, maxBytes)
    }

    function Returned(id: string, file: Bytes, maxBytes: nat): (r: Result<FetchedDocument, StoreError>) {
      var (bytes, truncated) := Utf8.LimitedRead(file, maxBytes);
      match bytes
      case None => Failure(InvalidUtf8)
      case Some(b) =>
        var text := Utf8.Decode(b);
        Success(FetchedDocument(id, text, MetadataOf(text, id), truncated))
    }

    /** The `fetch` tool: parse the id, then read. */
    function Fetch(kb: KnowledgeBase, scope: AccessScope, value: string): (r: Result<FetchedDocument, StoreError>) {
      match ParseId(value)
      case Failure(e) => Failure(e)
      case Success(id) => ReadLimited(kb, scope, id, maxReadBytes)
    }

    function ReadForSearch(kb: KnowledgeBase, scope: AccessScope, id: string): (r: Result<FetchedDocument, StoreError>) {
      ReadLimited(kb, scope, id, maxSearchFileBytes)
    }

    // ---- Candidates are allowed ----

    lemma {:induction false} ListedUnder(kb: KnowledgeBase, roots: seq<string>, id: string)
      requires IdsUnderAll(kb, roots).Success?
      ensures id in IdsUnderAll(kb, roots).value <==> exists d | d in roots :: ListsId(kb, d, id)
    {
      if roots != [] {
        var n := |roots| - 1;
        ListedUnder(kb, roots[..n], id);
        assert forall d :: d in roots <==> d in roots[..n] || d == roots[n] by { assert roots == roots[..n] + [roots[n]]; }
        assert id in IdsUnderAll(kb, roots).value <==> id in IdsUnderAll(kb, roots[..n]).value || ListsId(kb, roots[n], id);
      }
    }

    predicate ListsId(kb: KnowledgeBase, d: string, id: string) {
      IdsUnder(kb, d).Success? && id in IdsUnder(kb, d).value
    }

    /** The candidates in strict order: the index, and what the directories of the scope list. */
    lemma CandidatesAreTheListedIds(kb: KnowledgeBase, scope: AccessScope, id: string)
      requires Candidates(kb, scope).Success?
      ensures Sorting.Ascending(Less, Candidates(kb, scope).value)
      ensures id in Candidates(kb, scope).value <==>
              id in RootIndex(kb) || exists d | d in Roots(dirs, scope) :: ListsId(kb, d, id)
    {
      SortedOnce(Listed(kb, scope).value);
      ListedUnder(kb, Roots(dirs, scope), id);
    }

    /** Whatever the walker yields, a candidate of a scope is allowed to that scope. */
    lemma CandidatesAreAllowed(kb: KnowledgeBase, scope: AccessScope, id: string)
      requires IsSound(dirs) && Candidates(kb, scope).Success? && id in Candidates(kb, scope).value
      ensures IsAllowed(dirs, scope, id) && ParseId(id) == Success(id)
    {
      CandidatesAreTheListedIds(kb, scope, id);
      if id in RootIndex(kb) {
        IndexIsAnId();
      } else {
        var d :| d in Roots(dirs, scope) && ListsId(kb, d, id);
        assert IsSafeTopLevelDirectory(d);
        KeptIdsAreBelow(d, walk(d, kb.top[d], kb.ignores), id);
      }
    }

    /** What Tech lists, Private lists; what Tech may read, Private may read. */
    lemma TechIsWithinPrivate(kb: KnowledgeBase, id: string)
      ensures Candidates(kb, Private).Success? ==> Candidates(kb, Tech).Success?
      ensures Candidates(kb, Private).Success? && id in Candidates(kb, Tech).value ==> id in Candidates(kb, Private).value
      ensures IsAllowed(dirs, Tech, id) ==> IsAllowed(dirs, Private, id)
    {
      var all := Roots(dirs, Private);
      assert all[..|dirs.publicDirs|] == dirs.publicDirs == Roots(dirs, Tech);
      if Candidates(kb, Private).Success? {
        if IdsUnderAll(kb, Roots(dirs, Tech)).Failure? {
          FailureStays(kb, all, |dirs.publicDirs|);
          assert false;
        }
        CandidatesAreTheListedIds(kb, Tech, id);
        CandidatesAreTheListedIds(kb, Private, id);
      }
    }

    // ---- A Tech caller cannot tell two knowledge bases apart that agree on what is public ----

    lemma {:induction false} SameIdsUnderAll(a: KnowledgeBase, b: KnowledgeBase, roots: seq<string>)
      requires a.ignores == b.ignores && forall d | d in roots :: SameAt(a, b, d)
      ensures IdsUnderAll(a, roots) == IdsUnderAll(b, roots)
    {
      if roots != [] {
        assert SameAt(a, b, roots[|roots| - 1]);
        SameIdsUnderAll(a, b, roots[..|roots| - 1]);
      }
    }

    lemma SameReads(a: KnowledgeBase, b: KnowledgeBase, id: string, maxBytes: nat)
      requires AgreePublicly(a, b, dirs) && ParseId(id) == Success(id)
      ensures ReadLimited(a, Tech, id, maxBytes) == ReadLimited(b, Tech, id, maxBytes)
    {
      if IsAllowed(dirs, Tech, id) {
        SameOpens(a, b, dirs, id);
      }
    }

    /** Equal listings and equal answers to every fetch, errors included. */
    lemma TechSeesOnlyThePublicPart(a: KnowledgeBase, b: KnowledgeBase, value: string)
      requires AgreePublicly(a, b, dirs)
      ensures Candidates(a, Tech) == Candidates(b, Tech)
      ensures Fetch(a, Tech, value) == Fetch(b, Tech, value)
    {
      SameIdsUnderAll(a, b, Roots(dirs, Tech));
      if ParseId(value).Success? { SameReads(a, b, value, maxReadBytes); }
    }

    /** A note that was just created cannot be read back under any scope. */
    lemma NotesAreNeverReadable(kb: KnowledgeBase, scope: AccessScope, name: string)
      requires IsSound(dirs)
      ensures var id := InboxStore.INBOX_ID_PREFIX + "/" + name;
              && !IsAllowed(dirs, scope, id)
              && (Fetch(kb, scope, id) == Failure(NotFound) || Fetch(kb, scope, id) == Failure(InvalidDocumentId))
              && (Candidates(kb, scope).Success? ==> id !in Candidates(kb, scope).value)
    {
      var id := InboxStore.INBOX_ID_PREFIX + "/" + name;
      InboxIsNotAllowed(dirs, scope, name);
      if Candidates(kb, scope).Success? && id in Candidates(kb, scope).value {
        CandidatesAreAllowed(kb, scope, id);
      }
    }

    // ---- Listing and fetching, without the functions that compute them ----

    /** Step `k` of walking directory `d` is a Markdown file at the path `id`. */
    predicate YieldsAt(kb: KnowledgeBase, d: string, k: nat, id: string) {
      d in kb.top && IsYield(d, walk(d, kb.top[d], kb.ignores), k, id)
    }

    lemma ListsExactly(kb: KnowledgeBase, d: string, id: string)
      requires IdsUnder(kb, d).Success?
      ensures ListsId(kb, d, id) <==> exists k: nat :: YieldsAt(kb, d, k, id)
    {
      if d in kb.top {
        var steps := walk(d, kb.top[d], kb.ignores);
        KeepsAllExactly(d, steps, id);
        assert forall k: nat :: YieldsAt(kb, d, k, id) <==> IsYield(d, steps, k, id);
      }
    }

    lemma {:induction false} UnderAllSucceeds(kb: KnowledgeBase, roots: seq<string>, d: string)
      requires IdsUnderAll(kb, roots).Success? && d in roots
      ensures IdsUnder(kb, d).Success?
    {
      var n := |roots| - 1;
      if d != roots[n] {
        assert roots == roots[..n] + [roots[n]];
        UnderAllSucceeds(kb, roots[..n], d);
      }
    }

    /** The candidates: `INDEX.md`, and every Markdown file a walk of a directory of the scope yields, by its path. */
    lemma CandidatesExactly(kb: KnowledgeBase, scope: AccessScope, id: string)
      requires Candidates(kb, scope).Success?
      ensures id in Candidates(kb, scope).value <==>
              || (id == "INDEX.md" && "INDEX.md" in kb.top && kb.top["INDEX.md"].File?)
              || exists d, k: nat | d in dirs.publicDirs || (scope == Private && d in dirs.privateDirs) :: YieldsAt(kb, d, k, id)
    {
      CandidatesAreTheListedIds(kb, scope, id);
      forall d | d in Roots(dirs, scope) ensures ListsId(kb, d, id) <==> exists k: nat :: YieldsAt(kb, d, k, id) {
        UnderAllSucceeds(kb, Roots(dirs, scope), d);
        ListsExactly(kb, d, id);
      }
      assert forall d :: d in Roots(dirs, scope) <==> d in dirs.publicDirs || (scope == Private && d in dirs.privateDirs);
    }

    /** Listing fails exactly when a walk of a directory of the scope breaks off or yields a Markdown file whose path is no id. */
    lemma ListingFailsExactly(kb: KnowledgeBase, scope: AccessScope)
      ensures Candidates(kb, scope).Failure? <==>
              exists d, k: nat | d in Roots(dirs, scope) && d in kb.top ::
                IsBad(d, walk(d, kb.top[d], kb.ignores), k)
    {
      UnderAllFailsExactly(kb, Roots(dirs, scope));
    }

    lemma {:induction false} UnderAllFailsExactly(kb: KnowledgeBase, roots: seq<string>)
      ensures IdsUnderAll(kb, roots).Failure? <==>
              exists d, k: nat | d in roots && d in kb.top :: IsBad(d, walk(d, kb.top[d], kb.ignores), k)
    {
      if roots != [] {
        var n := |roots| - 1;
        UnderAllFailsExactly(kb, roots[..n]);
        assert forall d :: d in roots <==> d in roots[..n] || d == roots[n] by { assert roots == roots[..n] + [roots[n]]; }
        if roots[n] in kb.top { KeepAllFailsExactly(roots[n], walk(roots[n], kb.top[roots[n]], kb.ignores)); }
      }
    }

    /** The title and the rest of what the front matter says, where there is any. */
    ghost predicate Describes(m: Metadata, text: string, fallback: string) {
      match FrontMatter.Split(text)
      case None => m == Metadata(fallback, "", None)
      case Some(parts) =>
        match parseYaml(parts.0)
        case None => m == Metadata(fallback, "", None)
        case Some(f) =>
          && m.title == (if f.title.Some? then f.title.value else fallback)
          && m.description == (if f.description.Some? then f.description.value else "") && m.updated == f.updated
    }

    /** What a read of `contents` under the limit gives. */
    ghost predicate Reads(doc: FetchedDocument, id: string, contents: Bytes, maxBytes: nat) {
      && doc.id == id && doc.truncated == (|contents| > maxBytes)
      && (doc.truncated ==> Utf8.IsLongestValidPrefix(Utf8.Encode(doc.text), contents, maxBytes))
      && (!doc.truncated ==> Utf8.Encode(doc.text) == contents)
      && exists stem :: NamesFile(id, stem) && Describes(doc.metadata, doc.text, stem)
    }

    lemma ReturnsExactly(id: string, contents: Bytes, maxBytes: nat, doc: FetchedDocument)
      requires ParseId(id) == Success(id)
      ensures Returned(id, contents, maxBytes) == Success(doc) ==> Reads(doc, id, contents, maxBytes)
      ensures Returned(id, contents, maxBytes).Failure? <==> |contents| <= maxBytes && !Utf8.IsValid(contents)
      ensures Returned(id, contents, maxBytes).Failure? ==> Returned(id, contents, maxBytes) == Failure(InvalidUtf8)
    {
      if Returned(id, contents, maxBytes) == Success(doc) {
        var bytes := Utf8.LimitedRead(contents, maxBytes).0.value;
        Utf8.EncodeUndoesDecode(bytes);
        if |contents| > maxBytes { Utf8.CutIsTheLongest(contents, maxBytes); }
        FileStem(id);
        assert Describes(doc.metadata, doc.text, StemOf(FileName(id).value));
      }
    }

    /**
      A fetch succeeds exactly for an accepted id below `INDEX.md` or a directory of the scope that leads, name by name, to a
      readable regular file whose text is valid as far as it is read; and then it gives that file's text.
     */
    lemma FetchesExactly(kb: KnowledgeBase, scope: AccessScope, id: string)
      ensures Fetch(kb, scope, id).Success? <==>
              && IsAcceptable(id) && IsInScope(dirs, scope, id)
              && exists contents :: LeadsToFile(kb, id, File(contents, true)) && (|contents| > maxReadBytes || Utf8.IsValid(contents))
      ensures Fetch(kb, scope, id).Success? ==>
              exists contents :: LeadsToFile(kb, id, File(contents, true)) && Reads(Fetch(kb, scope, id).value, id, contents, maxReadBytes)
    {
      AcceptsExactly(id);
      if ParseId(id) == Success(id) {
        AllowedExactly(dirs, scope, id);
        forall contents ensures OpenRegularFile(kb, id) == Success(contents) <==> LeadsToFile(kb, id, File(contents, true)) {
          OpensExactly(kb, id, contents);
        }
        if IsInScope(dirs, scope, id) && OpenRegularFile(kb, id).Success? {
          var contents := OpenRegularFile(kb, id).value;
          var r := Returned(id, contents, maxReadBytes);
          if r.Success? {
            ReturnsExactly(id, contents, maxReadBytes, r.value);
          } else {
            ReturnsExactly(id, contents, maxReadBytes, FetchedDocument("", "", Metadata("", "", None), false));
          }
        }
      }
    }
  }

  predicate SameAt(a: KnowledgeBase, b: KnowledgeBase, name: string) {
    (name in a.top <==> name in b.top) && (name in a.top ==> a.top[name] == b.top[name])
  }

  predicate AgreePublicly(a: KnowledgeBase, b: KnowledgeBase, dirs: ScopeDirectories) {
    a.ignores == b.ignores && SameAt(a, b, "INDEX.md") && forall d | d in dirs.publicDirs :: SameAt(a, b, d)
  }

  /** Where a path leads depends only on the top-level entry it begins with. */
  lemma SameResolution(a: KnowledgeBase, b: KnowledgeBase, pieces: seq<string>)
    requires pieces != [] && pieces[0] != "" && pieces[0] != "." && SameAt(a, b, pieces[0])
    ensures Resolve(Dir(a.top), pieces) == Resolve(Dir(b.top), pieces)
  {
  }

  lemma InboxIsNotAllowed(dirs: ScopeDirectories, scope: AccessScope, name: string)
    requires IsSound(dirs)
    ensures !IsAllowed(dirs, scope, InboxStore.INBOX_ID_PREFIX + "/" + name)
  {
    SoundLeavesOutTheInbox(dirs);
    InboxIds(name);
  }

  lemma SoundLeavesOutTheInbox(dirs: ScopeDirectories)
    requires IsSound(dirs)
    ensures InboxStore.INBOX_ID_PREFIX !in dirs.publicDirs && InboxStore.INBOX_ID_PREFIX !in dirs.privateDirs
  {
  }

  lemma InboxPrefixIsPlain()
    ensures InboxStore.INBOX_ID_PREFIX != "" && InboxStore.INBOX_ID_PREFIX[0] == '9' && '/' !in InboxStore.INBOX_ID_PREFIX
  {
    var p := InboxStore.INBOX_ID_PREFIX;
    assert |p| == 8 && p[0] == '9' && p[1] == '9' && p[2] == '_' && p[3] == 'i' && p[4] == 'n' && p[5] == 'b' && p[6] == 'o' && p[7] == 'x';
  }

  lemma InboxIds(name: string)
    ensures TopLevel(InboxStore.INBOX_ID_PREFIX + "/" + name) == Some(InboxStore.INBOX_ID_PREFIX)
    ensures InboxStore.INBOX_ID_PREFIX + "/" + name != "INDEX.md"
  {
    InboxPrefixIsPlain();
    TopLevelOfJoin(InboxStore.INBOX_ID_PREFIX, name);
    assert (InboxStore.INBOX_ID_PREFIX + "/" + name)[0] == '9';
  }

  lemma SameOpens(a: KnowledgeBase, b: KnowledgeBase, dirs: ScopeDirectories, id: string)
    requires AgreePublicly(a, b, dirs) && ParseId(id) == Success(id) && IsAllowed(dirs, Tech, id)
    ensures OpenRegularFile(a, id) == OpenRegularFile(b, id)
  {
    SameFirstPiece(a, b, dirs, id);
    SameOpening(a, b, id);
  }

  lemma SameOpening(a: KnowledgeBase, b: KnowledgeBase, id: string)
    requires Pieces(id)[0] != "" && Pieces(id)[0] != "." && SameAt(a, b, Pieces(id)[0])
    ensures OpenRegularFile(a, id) == OpenRegularFile(b, id)
  {
    SameResolution(a, b, Pieces(id));
  }

  lemma SameFirstPiece(a: KnowledgeBase, b: KnowledgeBase, dirs: ScopeDirectories, id: string)
    requires AgreePublicly(a, b, dirs) && ParseId(id) == Success(id) && IsAllowed(dirs, Tech, id)
    ensures Pieces(id)[0] != "" && Pieces(id)[0] != "." && SameAt(a, b, Pieces(id)[0])
  {
    AllowedFirstPiece(dirs, id);
    AcceptedIdStartsAtItsTopLevel(id);
  }

  lemma AllowedFirstPiece(dirs: ScopeDirectories, id: string)
    requires ParseId(id) == Success(id) && IsAllowed(dirs, Tech, id)
    ensures Pieces(id)[0] == "INDEX.md" || Pieces(id)[0] in dirs.publicDirs
  {
    if id == "INDEX.md" {
      LonePiece(id);
    } else {
      AcceptedIdStartsAtItsTopLevel(id);
    }
  }

  lemma IndexExtension()
    ensures ExtensionOf("INDEX.md") == Some("md")
  {
    assert "INDEX" + ".md" == "INDEX.md";
    MarkdownExtension("INDEX");
  }

  /** The id that is pushed without a walk is one `DocumentId::parse` accepts. */
  lemma IndexIsAnId()
    ensures ParseId("INDEX.md") == Success("INDEX.md") && Pieces("INDEX.md") == ["INDEX.md"]
  {
    IndexExtension();
    AsciiLength("INDEX.md");
    LoneNameIsAnId("INDEX.md");
  }

  lemma LessIsAStrictOrder()
    ensures Sorting.StrictOrder(Less) && forall s: seq<string> :: Sorting.Comparable(Less, s)
  {
    forall x ensures !Less(x, x) { Lexicographic.Irreflexive(x); }
    forall x, y, z | Less(x, y) && Less(y, z) ensures Less(x, z) { Lexicographic.Transitive(x, y, z); }
    forall x: string, y: string ensures x == y || Less(x, y) || Less(y, x) { Lexicographic.Trichotomy(x, y); }
  }

  lemma SortedOnce(ids: seq<string>)
    ensures var r := Sorting.Dedup(Sorting.Sort(Less, ids)); Sorting.Ascending(Less, r) && forall id :: id in r <==> id in ids
  {
    LessIsAStrictOrder();
    Sorting.SortIsOrdered(Less, ids);
    Sorting.SameElements(Sorting.Sort(Less, ids), ids);
    Sorting.DedupAscends(Less, Sorting.Sort(Less, ids));
  }

  lemma {:induction false} KeepFailureStays(top: string, steps: seq<WalkStep>, k: nat)
    requires k <= |steps| && KeepAll(top, steps[..k]).Failure?
    ensures KeepAll(top, steps) == KeepAll(top, steps[..k])
    decreases |steps|
  {
    if k < |steps| {
      assert steps[..|steps| - 1][..k] == steps[..k];
      KeepFailureStays(top, steps[..|steps| - 1], k);
    } else {
      assert steps[..k] == steps;
    }
  }

  lemma {:induction false} KeptIdsAreBelow(top: string, steps: seq<WalkStep>, id: string)
    requires IsSafeTopLevelDirectory(top) && KeepAll(top, steps).Success? && id in KeepAll(top, steps).value
    ensures TopLevel(id) == Some(top) && ParseId(id) == Success(id)
  {
    var n := |steps| - 1;
    if id in KeepAll(top, steps[..n]).value {
      KeptIdsAreBelow(top, steps[..n], id);
    } else {
      KeptIdIsBelow(top, steps[n], id);
    }
  }

  lemma KeptIdIsBelow(top: string, step: WalkStep, id: string)
    requires IsSafeTopLevelDirectory(top) && Keep(top, step).Success? && id in Keep(top, step).value
    ensures TopLevel(id) == Some(top) && ParseId(id) == Success(id)
  {
    var names := step.names;
    TopLevelOfJoin(top, if names == [] then "" else JoinNames(names[0], names[1..]));
  }

  // ---- Paths and entries, by their names ----

  /** The directory and the names below it, joined by slashes. */
  function PathOf(top: string, names: seq<string>): (path: string) {
    if names == [] then top else PathOf(top, names[..|names| - 1]) + "/" + names[|names| - 1]
  }

  lemma {:induction false} JoinsToPath(top: string, names: seq<string>)
    ensures JoinNames(top, names) == PathOf(top, names)
    decreases |names|
  {
    if |names| == 1 {
      assert names[1..] == [] && names[..0] == [];
    } else if |names| > 1 {
      var n := |names| - 1;
      JoinsToPath(names[0], names[1..]);
      JoinsToPath(names[0], names[1..][..n - 1]);
      JoinsToPath(top, names[..n]);
      assert names[..n][1..] == names[1..][..n - 1] && names[..n][0] == names[0];
    }
  }

  /** The walk yields a regular file whose last name ends in `.md`. */
  predicate IsMarkdownStep(top: string, step: WalkStep) {
    step.Found? && step.isFile && IsMarkdown(if step.names == [] then top else step.names[|step.names| - 1])
  }

  predicate IsYield(top: string, steps: seq<WalkStep>, k: nat, id: string) {
    k < |steps| && IsMarkdownStep(top, steps[k]) && id == PathOf(top, steps[k].names)
  }

  predicate IsBad(top: string, steps: seq<WalkStep>, k: nat) {
    k < |steps| && (steps[k].Broken? || (IsMarkdownStep(top, steps[k]) && ParseId(PathOf(top, steps[k].names)).Failure?))
  }

  lemma KeepsExactly(top: string, step: WalkStep)
    ensures Keep(top, step) ==
            if step.Broken? then Failure(Io)
            else if !IsMarkdownStep(top, step) then Success([])
            else if ParseId(PathOf(top, step.names)).Failure? then Failure(ParseId(PathOf(top, step.names)).error)
            else Success([PathOf(top, step.names)])
  {
    if step.Found? {
      MarkdownExactly(if step.names == [] then top else step.names[|step.names| - 1]);
      JoinsToPath(top, step.names);
    }
  }

  predicate AnyYields(top: string, steps: seq<WalkStep>, id: string) {
    exists k: nat | k < |steps| :: IsYield(top, steps, k, id)
  }

  lemma {:induction false} KeepsAllExactly(top: string, steps: seq<WalkStep>, id: string)
    requires KeepAll(top, steps).Success?
    ensures id in KeepAll(top, steps).value <==> AnyYields(top, steps, id)
  {
    if steps != [] {
      KeepsAllExactly(top, steps[..|steps| - 1], id);
      LastYieldsExactly(top, steps, id);
      OneMoreYields(top, steps, id);
    }
  }

  lemma OneMoreYields(top: string, steps: seq<WalkStep>, id: string)
    requires steps != []
    ensures AnyYields(top, steps, id) <==> AnyYields(top, steps[..|steps| - 1], id) || IsYield(top, steps, |steps| - 1, id)
  {
    var n := |steps| - 1;
    if AnyYields(top, steps, id) {
      var k: nat :| k < |steps| && IsYield(top, steps, k, id);
      if k < n { assert IsYield(top, steps[..n], k, id); }
    }
    if AnyYields(top, steps[..n], id) {
      var k: nat :| k < n && IsYield(top, steps[..n], k, id);
      assert IsYield(top, steps, k, id);
    }
  }

  lemma LastYieldsExactly(top: string, steps: seq<WalkStep>, id: string)
    requires steps != [] && Keep(top, steps[|steps| - 1]).Success?
    ensures id in Keep(top, steps[|steps| - 1]).value <==> IsYield(top, steps, |steps| - 1, id)
  {
    KeepsExactly(top, steps[|steps| - 1]);
  }

  lemma {:induction false} KeepAllFailsExactly(top: string, steps: seq<WalkStep>)
    ensures KeepAll(top, steps).Failure? <==> exists k: nat :: IsBad(top, steps, k)
  {
    if steps != [] {
      var n := |steps| - 1;
      KeepAllFailsExactly(top, steps[..n]);
      LastFailsExactly(top, steps);
      forall k: nat ensures IsBad(top, steps, k) <==> IsBad(top, steps[..n], k) || (k == n && IsBad(top, steps, n)) {
      }
    }
  }

  lemma LastFailsExactly(top: string, steps: seq<WalkStep>)
    requires steps != []
    ensures Keep(top, steps[|steps| - 1]).Failure? <==> IsBad(top, steps, |steps| - 1)
  {
    KeepsExactly(top, steps[|steps| - 1]);
  }

  /** The id is below the index or a directory that the scope sees. */
  predicate IsInScope(dirs: ScopeDirectories, scope: AccessScope, id: string) {
    || id == "INDEX.md" || Pieces(id)[0] in dirs.publicDirs
    || (scope == Private && Pieces(id)[0] in dirs.privateDirs)
  }

  lemma AllowedExactly(dirs: ScopeDirectories, scope: AccessScope, id: string)
    requires ParseId(id) == Success(id)
    ensures IsAllowed(dirs, scope, id) <==> IsInScope(dirs, scope, id)
  {
    AcceptedIdStartsAtItsTopLevel(id);
  }

  /** `stem` is the name of the file the id ends in, without its `.md`. */
  predicate NamesFile(id: string, stem: string) {
    exists i | 0 <= i < |Pieces(id)| :: EndsIn(Pieces(id), i) && Pieces(id)[i] == stem + ".md"
  }

  lemma FileStem(id: string)
    requires ParseId(id) == Success(id)
    ensures FileName(id).Some? && NamesFile(id, StemOf(FileName(id).value))
  {
    var p := Pieces(id);
    AcceptedParts(id);
    AcceptedIdStartsAtItsTopLevel(id);
    NothingAddedInFront(id);
    var i := FindEnd(p);
    LastComponent(p, i);
    MarkdownStem(p[i]);
  }

  lemma MarkdownStem(name: string)
    requires ExtensionOf(name) == Some("md")
    ensures name == StemOf(name) + ".md"
  {
    LastDotIs(name);
    var i := LastDot(name);
    assert name == name[..i] + [name[i]] + name[i + 1..];
  }

  /** `nodes` leads from `root` to `node` by `names`, directory by directory. */
  ghost predicate IsTrail(root: Node, names: seq<string>, nodes: seq<Node>, node: Node) {
    && |nodes| == |names| + 1 && nodes[0] == root && nodes[|names|] == node
    && forall i | 0 <= i < |names| :: IsBelow(nodes[i], names[i], nodes[i + 1])
  }

  ghost predicate HasTrail(root: Node, names: seq<string>, node: Node) {
    exists nodes :: IsTrail(root, names, nodes, node)
  }

  predicate IsBelow(directory: Node, name: string, node: Node) {
    directory.Dir? && name in directory.entries && directory.entries[name] == node
  }

  function Named(pieces: seq<string>): (names: seq<string>) {
    if pieces == [] then [] else (if IsSkipped(pieces[0]) then [] else [pieces[0]]) + Named(pieces[1..])
  }

  /** The names of the path, without a slash or dot after the last, lead to the file. */
  ghost predicate LeadsToFile(kb: KnowledgeBase, id: string, file: Node) {
    && !IsSkipped(Pieces(id)[|Pieces(id)| - 1])
    && HasTrail(Dir(kb.top), Named(Pieces(id)), file)
  }

  lemma {:induction false} ResolvesExactly(node: Node, pieces: seq<string>, file: Node)
    requires file.File? && pieces != []
    ensures Resolve(node, pieces) == Some(file) <==>
            !IsSkipped(pieces[|pieces| - 1]) && HasTrail(node, Named(pieces), file)
    decreases |pieces|
  {
    var rest := pieces[1..];
    if IsSkipped(pieces[0]) {
      if rest != [] {
        ResolvesExactly(node, rest, file);
        assert Named(pieces) == Named(rest);
        if !node.Dir? && !IsSkipped(pieces[|pieces| - 1]) { TrailsFromFilesEnd(node, rest, file); }
      }
    } else if node.Dir? && pieces[0] in node.entries {
      var next := node.entries[pieces[0]];
      if rest == [] {
        assert Named(pieces) == [pieces[0]] + [];
        LongerTrail(node, pieces[0], [], file);
        EmptyTrail(next, file);
      } else {
        ResolvesExactly(next, rest, file);
        LongerTrail(node, pieces[0], Named(rest), file);
      }
    } else {
      assert Named(pieces)[0] == pieces[0];
      NoTrail(node, Named(pieces), file);
    }
  }

  lemma EmptyTrail(root: Node, node: Node)
    ensures HasTrail(root, [], node) <==> root == node
  {
    if root == node { assert IsTrail(root, [], [root], node); }
  }

  lemma LongerTrail(root: Node, name: string, names: seq<string>, node: Node)
    requires root.Dir? && name in root.entries
    ensures HasTrail(root, [name] + names, node) <==> HasTrail(root.entries[name], names, node)
  {
    forall nodes: seq<Node> | IsTrail(root, [name] + names, nodes, node) ensures IsTrail(root.entries[name], names, nodes[1..], node) {
      assert IsBelow(nodes[0], ([name] + names)[0], nodes[1]);
      forall i | 0 <= i < |names| ensures IsBelow(nodes[1..][i], names[i], nodes[1..][i + 1]) {
        assert IsBelow(nodes[i + 1], ([name] + names)[i + 1], nodes[i + 2]);
      }
    }
    forall nodes: seq<Node> | IsTrail(root.entries[name], names, nodes, node) ensures IsTrail(root, [name] + names, [root] + nodes, node) {
      forall i | 0 <= i < |names| + 1 ensures IsBelow(([root] + nodes)[i], ([name] + names)[i], ([root] + nodes)[i + 1]) {
        if i > 0 { assert IsBelow(nodes[i - 1], names[i - 1], nodes[i]); }
      }
    }
  }

  lemma NoTrail(root: Node, names: seq<string>, node: Node)
    requires names != [] && (!root.Dir? || names[0] !in root.entries)
    ensures !HasTrail(root, names, node)
  {
    forall nodes ensures !IsTrail(root, names, nodes, node) {
      assert |nodes| > 1 && nodes[0] == root ==> !IsBelow(nodes[0], names[0], nodes[1]);
    }
  }

  /** Skipped pieces stand only on directories, which a trail through a further name begins with. */
  lemma {:induction false} TrailsFromFilesEnd(root: Node, pieces: seq<string>, file: Node)
    requires pieces != [] && !root.Dir? && !IsSkipped(pieces[|pieces| - 1])
    ensures !HasTrail(root, Named(pieces), file)
  {
    NamedIsNotEmpty(pieces);
    NoTrail(root, Named(pieces), file);
  }

  lemma {:induction false} NamedIsNotEmpty(pieces: seq<string>)
    requires pieces != [] && !IsSkipped(pieces[|pieces| - 1])
    ensures Named(pieces) != []
  {
    if IsSkipped(pieces[0]) { NamedIsNotEmpty(pieces[1..]); }
  }

  lemma OpensExactly(kb: KnowledgeBase, id: string, contents: Bytes)
    ensures OpenRegularFile(kb, id) == Success(contents) <==> LeadsToFile(kb, id, File(contents, true))
  {
    var file := File(contents, true);
    ResolvesExactly(Dir(kb.top), Pieces(id), file);
    assert OpenRegularFile(kb, id) == Success(contents) <==> Resolve(Dir(kb.top), Pieces(id)) == Some(file);
  }

  // ---- Names that cannot lead elsewhere ----

  /** Usable as a scope: one visible path component without separators. */
  predicate IsPlainDirectory(d: string) {
    d != "" && d[0] != '.' && ByteLen(d) <= 128 && '/' !in d && '\\' !in d && '\0' !in d && ':' !in d
  }

  lemma SafeDirectoriesExactly(d: string)
    ensures IsSafeTopLevelDirectory(d) <==> IsPlainDirectory(d)
  {
    if IsPlainDirectory(d) { LoneComponent(d); }
  }

  /** Scopes are accepted exactly when both are nonempty, hold plain names, have none in common, and leave out the inbox. */
  lemma ConfiguresExactly(publicDirs: seq<string>, privateDirs: seq<string>)
    ensures NewDirectories(publicDirs, privateDirs) == Success(ScopeDirectories(publicDirs, privateDirs)) <==>
            && publicDirs != [] && privateDirs != []
            && (forall d | d in publicDirs || d in privateDirs :: IsPlainDirectory(d) && d != "99_inbox")
            && forall d | d in publicDirs :: d !in privateDirs
    ensures NewDirectories(publicDirs, privateDirs).Success? ==>
              NewDirectories(publicDirs, privateDirs).value == ScopeDirectories(publicDirs, privateDirs)
  {
    forall d ensures IsSafeTopLevelDirectory(d) <==> IsPlainDirectory(d) {
      SafeDirectoriesExactly(d);
    }
  }

  /** A safe file name is one visible path component that ends in `.md`: opening it cannot leave the directory. */
  lemma SafeFileNamesStayInside(name: string)
    requires NoteNames.IsSafeFileName(name)
    ensures Pieces(name) == [name] && Components(name) == [Normal(name)] && name[0] != '.' && ByteLen(name) <= 255
    ensures |name| >= 3 && name[|name| - 3..] == ".md"
  {
    NameHasNoSlash(name);
    LoneComponent(name);
    EndsInMd(name);
  }

  lemma NameHasNoSlash(name: string)
    requires NoteNames.AllNameChars(name)
    ensures '/' !in name
  {
  }

  lemma EndsInMd(name: string)
    requires NoteNames.EndsWith(name, ".md")
    ensures |name| >= 3 && name[|name| - 3..] == ".md"
  {
  }
}
