/** Ranked, size-limited search (src/search.rs). */
module Search {
  import opened Common
  import opened Text
  import opened DocumentIds
  import opened Documents
  import Sorting
  import FrontMatter

  const MAX_LIMIT: nat := 20
  const DEFAULT_LIMIT: nat := 10
  const MAX_SNIPPET_CHARS: nat := 600
  const MAX_QUERY_BYTES: nat := 256

  /** `metadata.path` repeats the id. */
  datatype SearchResult = SearchResult(id: string, title: string, snippet: string, description: string, lineStart: nat, lineEnd: nat)

  datatype Scored = Scored(score: nat, result: SearchResult)

  datatype Response = Response(results: seq<SearchResult>, truncated: bool)

  /** Score descending, then id ascending. */
  predicate Before(a: Scored, b: Scored) {
    a.score > b.score || (a.score == b.score && Less(a.result.id, b.result.id))
  }

  predicate Contains(text: string, term: string) {
    FrontMatter.Find(text, term).Some?
  }

  // ---- Lines and snippets ----

  function LineLength(s: string): (n: nat)
    ensures n <= |s| && (n < |s| ==> s[n] == '\n')
  {
    if s == "" || s[0] == '\n' then 0 else 1 + LineLength(s[1..])
  }

  function WithoutReturn(line: string): (r: string) {
    if line != "" && line[|line| - 1] == '\r' then line[..|line| - 1] else line
  }

  /** `str::lines`. */
  function Lines(text: string): (r: seq<string>)
    decreases |text|
  {
    if text == "" then []
    else
      var n := LineLength(text);
      if n == |text| then [text] else [WithoutReturn(text[..n])] + Lines(text[n + 1..])
  }

  function JoinLines(lines: seq<string>): (r: string) {
    if lines == [] then ""
    else if |lines| == 1 then lines[0]
    else lines[0] + "\n" + JoinLines(lines[1..])
  }

  function Min(a: nat, b: nat): (r: nat) {
    if a <= b then a else b
  }

  const ELLIPSIS: string := "\U{2026}"

  /** Joining a prefix of the lines gives a prefix of all of them joined. */
  lemma {:induction false} JoinOfPrefix(lines: seq<string>, n: nat)
    requires 0 < n <= |lines|
    ensures JoinLines(lines[..n]) <= JoinLines(lines)
  {
    if n == 1 {
      assert lines[..1] == [lines[0]];
    } else {
      JoinOfPrefix(lines[1..], n - 1);
      assert lines[..n][1..] == lines[1..][..n - 1];
    }
  }

  lemma JoinOfWindow(lines: seq<string>, start: nat, m: nat, end: nat)
    requires start <= m < end <= |lines|
    ensures JoinLines(lines[start..m + 1]) <= JoinLines(lines[start..end])
  {
    assert lines[start..end][..m + 1 - start] == lines[start..m + 1];
    JoinOfPrefix(lines[start..end], m + 1 - start);
  }

  /** What a cut with an ellipsis keeps of a beginning. */
  lemma CutKeepsPrefix(shown: string, joined: string)
    requires shown <= joined
    ensures shown <= Shorten(joined) <==>
            |shown| <= MAX_SNIPPET_CHARS || (|shown| == MAX_SNIPPET_CHARS + 1 && shown[MAX_SNIPPET_CHARS..] == ELLIPSIS)
  {
    if |joined| > MAX_SNIPPET_CHARS && |shown| == MAX_SNIPPET_CHARS + 1 {
      assert shown == shown[..MAX_SNIPPET_CHARS] + shown[MAX_SNIPPET_CHARS..];
      assert shown[..MAX_SNIPPET_CHARS] == joined[..MAX_SNIPPET_CHARS];
    }
  }

  lemma {:induction false} LineBeforeBreak(line: string, rest: string)
    requires '\n' !in line
    ensures LineLength(line + "\n" + rest) == |line|
  {
    var s := line + "\n" + rest;
    if line != "" {
      assert s[1..] == line[1..] + "\n" + rest;
      LineBeforeBreak(line[1..], rest);
    }
  }

  lemma {:induction false} LastLine(line: string)
    requires '\n' !in line
    ensures LineLength(line) == |line|
  {
    if line != "" { LastLine(line[1..]); }
  }

  /** A line ends at a newline, or at a carriage return before it; the last needs neither. This says what the lines of every text are. */
  lemma LinesOfParts(line: string, rest: string)
    requires '\n' !in line
    ensures Lines(line + "\n" + rest) == [if line != "" && line[|line| - 1] == '\r' then line[..|line| - 1] else line] + Lines(rest)
    ensures Lines(line) == if line == "" then [] else [line]
  {
    var s := line + "\n" + rest;
    LineBeforeBreak(line, rest);
    LastLine(line);
    assert s[..|line|] == line && s[|line| + 1..] == rest;
  }

  lemma TwoLines(a: string, b: string)
    requires '\n' !in a && '\n' !in b && b != "" && (a != "" ==> a[|a| - 1] != '\r')
    ensures Lines(a + "\n" + b) == [a, b]
  {
    var s := a + "\n" + b;
    LineBeforeBreak(a, b);
    LastLine(b);
    assert s[..|a|] == a && s[|a| + 1..] == b;
  }

  lemma NoneFound(s: string, term: string)
    requires term != "" && forall c | c in term :: c !in s
    ensures !Contains(s, term)
  {
    forall i ensures !FrontMatter.OccursAt(s, term, i) {
      if 0 <= i <= |s| - |term| {
        assert s[i..i + |term|][0] == s[i] && s[i] in s && term[0] in term;
      }
    }
  }

  lemma WholeIsFound(term: string)
    ensures Contains(term, term)
  {
    assert term[0..0 + |term|] == term;
    assert FrontMatter.OccursAt(term, term, 0);
  }

  datatype Snippet = Snippet(text: string, lineStart: nat, lineEnd: nat)

  function WindowStart(m: nat): (r: nat) {
    if m >= 2 then m - 2 else 0
  }

  function Shorten(text: string): (r: string) {
    if |text| > MAX_SNIPPET_CHARS then text[..MAX_SNIPPET_CHARS] + ELLIPSIS else text
  }

  /** Line `m`, with two lines before and after it, cut to its limit. */
  function SnippetAround(lines: seq<string>, m: nat): (r: Snippet)
    requires m <= |lines|
  {
    var end := Min(m + 3, |lines|);
    Snippet(Shorten(JoinLines(lines[WindowStart(m)..end])), WindowStart(m) + 1, end)
  }

  /** The lines of the window up to and including line `m`, as a snippet would begin with them. */
  function UpTo(lines: seq<string>, m: nat): (r: string)
    requires m < |lines|
  {
    JoinLines(lines[WindowStart(m)..m + 1])
  }

  lemma LineIsShownExactlyWhenItFits(lines: seq<string>, m: nat)
    requires m < |lines|
    ensures var shown := UpTo(lines, m);
            shown <= SnippetAround(lines, m).text <==>
            |shown| <= MAX_SNIPPET_CHARS || (|shown| == MAX_SNIPPET_CHARS + 1 && shown[MAX_SNIPPET_CHARS..] == ELLIPSIS)
  {
    var end := Min(m + 3, |lines|);
    JoinOfWindow(lines, WindowStart(m), m, end);
    CutKeepsPrefix(UpTo(lines, m), JoinLines(lines[WindowStart(m)..end]));
  }

  // ---- Sizes of serialized responses ----

  function ResultBytes(results: seq<SearchResult>, jsonSize: SearchResult -> nat): (r: nat) {
    if results == [] then 0
    else ResultBytes(results[..|results| - 1], jsonSize) + jsonSize(results[|results| - 1]) + if |results| > 1 then 1 else 0
  }

  /** `{"results":[` … `],"truncated":` … `}`. */
  function ResponseSize(r: Response, jsonSize: SearchResult -> nat): (result: nat) {
    12 + ResultBytes(r.results, jsonSize) + 14 + (if r.truncated then 4 else 5) + 1
  }

  /** The response as it is sent, from the text of each result. */
  function Serialized(r: Response, json: SearchResult -> string): (text: string) {
    "{\"results\":[" + Listed(r.results, json) + "],\"truncated\":" + (if r.truncated then "true" else "false") + "}"
  }

  function Listed(results: seq<SearchResult>, json: SearchResult -> string): (text: string) {
    if results == [] then ""
    else Listed(results[..|results| - 1], json) + (if |results| > 1 then "," else "") + json(results[|results| - 1])
  }

  /** The size that is compared with the limit is that of the text that is sent. */
  lemma SizeIsThatOfTheText(r: Response, json: SearchResult -> string, jsonSize: SearchResult -> nat)
    requires forall x :: |json(x)| == jsonSize(x)
    ensures |Serialized(r, json)| == ResponseSize(r, jsonSize)
  {
    ListedSize(r.results, json, jsonSize);
  }

  lemma {:induction false} ListedSize(results: seq<SearchResult>, json: SearchResult -> string, jsonSize: SearchResult -> nat)
    requires forall x :: |json(x)| == jsonSize(x)
    ensures |Listed(results, json)| == ResultBytes(results, jsonSize)
  {
    if results != [] { ListedSize(results[..|results| - 1], json, jsonSize); }
  }

  function Results(s: seq<Scored>): (r: seq<SearchResult>) {
    if s == [] then [] else Results(s[..|s| - 1]) + [s[|s| - 1].result]
  }

  lemma {:induction false} ResultsOfPrefix(s: seq<Scored>, k: nat)
    requires k <= |s|
    ensures |Results(s)| == |s| && Results(s[..k]) == Results(s)[..k]
    ensures forall i | 0 <= i < |s| :: Results(s)[i] == s[i].result
    decreases |s|
  {
    if s != [] {
      var n := |s| - 1;
      if k < |s| {
        ResultsOfPrefix(s[..n], k);
        assert s[..n][..k] == s[..k];
      } else {
        ResultsOfPrefix(s[..n], n);
        assert s[..k] == s;
      }
    }
  }

  /**
    The page of a ranking: a prefix of at most `limit` results, truncated exactly when something is left out,
    that fits, and that could not take one more result.
   */
  predicate IsPage(ranking: seq<SearchResult>, limit: nat, maxBytes: nat, jsonSize: SearchResult -> nat, r: Response) {
    var flag := |ranking| > limit;
    && r.results <= ranking && |r.results| <= limit
    && (r.truncated <==> |r.results| < |ranking|)
    && (r.results != [] ==> ResponseSize(Response(r.results, flag), jsonSize) <= maxBytes)
    && (|r.results| < Min(limit, |ranking|) ==> ResponseSize(Response(ranking[..|r.results| + 1], flag), jsonSize) > maxBytes)
  }

  lemma {:induction false} BytesGrow(ranking: seq<SearchResult>, j: nat, k: nat, jsonSize: SearchResult -> nat)
    requires j <= k <= |ranking|
    ensures ResultBytes(ranking[..j], jsonSize) <= ResultBytes(ranking[..k], jsonSize)
  {
    if j < k {
      assert ranking[..k][..k - 1] == ranking[..k - 1];
      BytesGrow(ranking, j, k - 1, jsonSize);
    }
  }

  lemma {:induction false} PageResult(ranking: seq<Scored>, limit: nat, maxBytes: nat, jsonSize: SearchResult -> nat, r: Response, i: nat)
    requires IsPage(Results(ranking), limit, maxBytes, jsonSize, r) && i < |r.results|
    ensures i < |ranking| && r.results[i] == ranking[i].result
  {
    ResultsOfPrefix(ranking, |ranking|);
    assert r.results[i] == Results(ranking)[i];
  }

  lemma PageStoppedAt(ranking: seq<SearchResult>, limit: nat, maxBytes: nat, jsonSize: SearchResult -> nat, k: nat)
    requires k < Min(limit, |ranking|)
    requires k > 0 ==> ResponseSize(Response(ranking[..k], |ranking| > limit), jsonSize) <= maxBytes
    requires ResponseSize(Response(ranking[..k + 1], |ranking| > limit), jsonSize) > maxBytes
    ensures IsPage(ranking, limit, maxBytes, jsonSize, Response(ranking[..k], true))
  {
  }

  lemma PageFilled(ranking: seq<SearchResult>, limit: nat, maxBytes: nat, jsonSize: SearchResult -> nat)
    requires var k := Min(limit, |ranking|); k > 0 ==> ResponseSize(Response(ranking[..k], |ranking| > limit), jsonSize) <= maxBytes
    ensures IsPage(ranking, limit, maxBytes, jsonSize, Response(ranking[..Min(limit, |ranking|)], |ranking| > limit))
  {
  }

  /** There is only one page. */
  lemma PageIsUnique(ranking: seq<SearchResult>, limit: nat, maxBytes: nat, jsonSize: SearchResult -> nat, r: Response, q: Response)
    requires IsPage(ranking, limit, maxBytes, jsonSize, r) && IsPage(ranking, limit, maxBytes, jsonSize, q)
    ensures r == q
  {
    assert r.results == ranking[..|r.results|] && q.results == ranking[..|q.results|];
    if |r.results| < |q.results| {
      BytesGrow(ranking, |r.results| + 1, |q.results|, jsonSize);
    } else if |q.results| < |r.results| {
      BytesGrow(ranking, |q.results| + 1, |r.results|, jsonSize);
    }
  }

  /** The response fits whenever an empty one would, and an empty one has at most 32 bytes. */
  lemma PageFits(ranking: seq<SearchResult>, limit: nat, maxBytes: nat, jsonSize: SearchResult -> nat, r: Response)
    requires IsPage(ranking, limit, maxBytes, jsonSize, r)
    ensures ResponseSize(r, jsonSize) <= maxBytes || r.results == []
    ensures maxBytes >= ResponseSize(Response([], false), jsonSize) ==> ResponseSize(r, jsonSize) <= maxBytes
  {
  }

  /** Every further result takes room, if only for a comma after the first. */
  lemma {:induction false} BytesGrowStrictly(ranking: seq<SearchResult>, j: nat, k: nat, jsonSize: SearchResult -> nat)
    requires 0 < j < k <= |ranking|
    ensures ResultBytes(ranking[..j], jsonSize) < ResultBytes(ranking[..k], jsonSize)
  {
    assert ranking[..j + 1][..j] == ranking[..j];
    BytesGrow(ranking, j + 1, k, jsonSize);
  }

  /** The first `k` results, with the flag a reader expects. */
  function HonestPage(ranking: seq<SearchResult>, k: nat): (r: Response)
    requires k <= |ranking|
  {
    Response(ranking[..k], k < |ranking|)
  }

  /** A longer response that was possible: within the limit, correctly flagged, and fitting. */
  predicate WouldHaveFitted(ranking: seq<SearchResult>, limit: nat, maxBytes: nat, jsonSize: SearchResult -> nat, r: Response, k: nat) {
    |r.results| < k <= Min(limit, |ranking|) && ResponseSize(HonestPage(ranking, k), jsonSize) <= maxBytes
  }

  /** The first `k` results, not all there are, and the flag `true` take the permitted bytes exactly. */
  predicate FillsExactly(ranking: seq<SearchResult>, maxBytes: nat, jsonSize: SearchResult -> nat, k: nat) {
    0 < k < |ranking| && ResponseSize(HonestPage(ranking, k), jsonSize) == maxBytes
  }

  /** No longer response, correctly flagged, leaves a byte to spare. */
  lemma LongerPagesLeaveNoRoom(ranking: seq<SearchResult>, limit: nat, maxBytes: nat, jsonSize: SearchResult -> nat, r: Response, k: nat)
    requires IsPage(ranking, limit, maxBytes, jsonSize, r) && |r.results| < k <= Min(limit, |ranking|)
    ensures ResponseSize(HonestPage(ranking, k), jsonSize) >= maxBytes
  {
    BytesGrow(ranking, |r.results| + 1, k, jsonSize);
  }

  /** When a longer response would have fitted, it is longer by one result, every match is within the limit, and it fits exactly. */
  lemma OnlyTheNextMayFit(ranking: seq<SearchResult>, limit: nat, maxBytes: nat, jsonSize: SearchResult -> nat, r: Response, k: nat)
    requires IsPage(ranking, limit, maxBytes, jsonSize, r) && WouldHaveFitted(ranking, limit, maxBytes, jsonSize, r, k)
    ensures k == |r.results| + 1 && |ranking| <= limit && FillsExactly(ranking, maxBytes, jsonSize, k)
  {
    BytesGrow(ranking, |r.results| + 1, k, jsonSize);
    if k > |r.results| + 1 { BytesGrowStrictly(ranking, |r.results| + 1, k, jsonSize); }
  }

  /**
    What is measured carries the longer `false`, what is returned would say `true`. So a longer response would have
    fitted exactly when every match is within the limit and some of them, but not all, fill the permitted bytes.
   */
  lemma ResultIsLostExactlyWhen(ranking: seq<SearchResult>, limit: nat, maxBytes: nat, jsonSize: SearchResult -> nat, r: Response)
    requires IsPage(ranking, limit, maxBytes, jsonSize, r)
    ensures (exists k: nat :: WouldHaveFitted(ranking, limit, maxBytes, jsonSize, r, k)) <==>
            |ranking| <= limit && exists k: nat :: FillsExactly(ranking, maxBytes, jsonSize, k)
  {
    if exists k: nat :: WouldHaveFitted(ranking, limit, maxBytes, jsonSize, r, k) {
      var k: nat :| WouldHaveFitted(ranking, limit, maxBytes, jsonSize, r, k);
      OnlyTheNextMayFit(ranking, limit, maxBytes, jsonSize, r, k);
    }
    if |ranking| <= limit && exists k: nat :: FillsExactly(ranking, maxBytes, jsonSize, k) {
      var k: nat :| FillsExactly(ranking, maxBytes, jsonSize, k);
      assert r.results == ranking[..|r.results|];
      if k <= |r.results| {
        BytesGrow(ranking, k, |r.results|, jsonSize);
        assert false;
      }
      assert WouldHaveFitted(ranking, limit, maxBytes, jsonSize, r, k);
    }
  }

  /** At most one result is lost that way. */
  lemma AtMostOneResultIsLost(ranking: seq<SearchResult>, limit: nat, maxBytes: nat, jsonSize: SearchResult -> nat, r: Response)
    requires IsPage(ranking, limit, maxBytes, jsonSize, r)
    ensures forall k: nat :: WouldHaveFitted(ranking, limit, maxBytes, jsonSize, r, k) ==> k == |r.results| + 1
  {
    forall k: nat | WouldHaveFitted(ranking, limit, maxBytes, jsonSize, r, k) ensures k == |r.results| + 1 {
      OnlyTheNextMayFit(ranking, limit, maxBytes, jsonSize, r, k);
    }
  }

  /** It happens: with any three results, at the size of the first two. */
  lemma OneResultMayBeLost(a: SearchResult, b: SearchResult, c: SearchResult, jsonSize: SearchResult -> nat)
    requires jsonSize(a) > 0 && jsonSize(b) > 0 && jsonSize(c) > 1
    ensures var ranking := [a, b, c];
            var maxBytes := ResponseSize(HonestPage(ranking, 2), jsonSize);
            IsPage(ranking, DEFAULT_LIMIT, maxBytes, jsonSize, Response([a], true))
            && WouldHaveFitted(ranking, DEFAULT_LIMIT, maxBytes, jsonSize, Response([a], true), 2)
  {
    var ranking := [a, b, c];
    assert [a, b][..1] == [a] && [a][..0] == [];
    assert ranking[..1] == [a] && ranking[..2] == [a, b];
    assert ResultBytes([a], jsonSize) == jsonSize(a);
    assert ResultBytes([a, b], jsonSize) == jsonSize(a) + jsonSize(b) + 1;
  }

  // ---- Going through the candidates ----

  type Contribution = string -> Result<seq<Scored>, StoreError>

  /** What the candidates contribute, one after another; the first error ends it. */
  function Gather(f: Contribution, ids: seq<string>): (r: Result<seq<Scored>, StoreError>) {
    if ids == [] then Success([]) else Append(Gather(f, ids[..|ids| - 1]), f(ids[|ids| - 1]))
  }

  predicate Gives(f: Contribution, id: string, s: Scored) {
    f(id).Success? && s in f(id).value
  }

  ghost predicate IsAtMostOne(f: Contribution, id: string) {
    f(id).Success? ==> |f(id).value| <= 1 && forall s | s in f(id).value :: s.result.id == id
  }

  lemma {:induction false} GatheredAreGiven(f: Contribution, ids: seq<string>, s: Scored)
    requires Gather(f, ids).Success?
    ensures s in Gather(f, ids).value <==> exists id | id in ids :: Gives(f, id, s)
  {
    if ids != [] {
      var n := |ids| - 1;
      GatheredAreGiven(f, ids[..n], s);
      assert forall id :: id in ids <==> id in ids[..n] || id == ids[n] by { assert ids == ids[..n] + [ids[n]]; }
      assert s in Gather(f, ids).value <==> s in Gather(f, ids[..n]).value || Gives(f, ids[n], s);
    }
  }

  lemma {:induction false} GatheredIdsAreDistinct(f: Contribution, ids: seq<string>)
    requires Gather(f, ids).Success? && forall id :: IsAtMostOne(f, id)
    requires forall i, j | 0 <= i < j < |ids| :: ids[i] != ids[j]
    ensures var all := Gather(f, ids).value;
            && (forall i | 0 <= i < |all| :: all[i].result.id in ids)
            && (forall i, j | 0 <= i < j < |all| :: all[i].result.id != all[j].result.id)
  {
    if ids != [] {
      var n := |ids| - 1;
      GatheredIdsAreDistinct(f, ids[..n]);
      assert IsAtMostOne(f, ids[n]);
      assert ids[n] !in ids[..n];
      assert forall x | x in ids[..n] :: x in ids;
    }
  }

  /** Going through the candidates fails exactly when one of them does, with its error. */
  lemma {:induction false} GatherFailsExactly(f: Contribution, ids: seq<string>)
    ensures Gather(f, ids).Failure? <==> exists id | id in ids :: f(id).Failure?
    ensures Gather(f, ids).Failure? ==> exists id | id in ids :: f(id) == Failure(Gather(f, ids).error)
  {
    if ids != [] {
      var n := |ids| - 1;
      GatherFailsExactly(f, ids[..n]);
      assert forall id :: id in ids <==> id in ids[..n] || id == ids[n] by { assert ids == ids[..n] + [ids[n]]; }
    }
  }

  lemma {:induction false} GatherFailureStays(f: Contribution, ids: seq<string>, i: nat)
    requires i <= |ids| && Gather(f, ids[..i]).Failure?
    ensures Gather(f, ids) == Gather(f, ids[..i])
    decreases |ids|
  {
    if i < |ids| {
      assert ids[..|ids| - 1][..i] == ids[..i];
      GatherFailureStays(f, ids[..|ids| - 1], i);
    } else {
      assert ids[..i] == ids;
    }
  }

  lemma {:induction false} SameGather(f: Contribution, g: Contribution, ids: seq<string>)
    requires forall id | id in ids :: f(id) == g(id)
    ensures Gather(f, ids) == Gather(g, ids)
  {
    if ids != [] { SameGather(f, g, ids[..|ids| - 1]); }
  }

  // ---- Search ----

  /** `lower` is `str::to_lowercase`, `jsonSize` the length of a serialized result. */
  datatype Searcher = Searcher(store: DocumentStore, lower: string -> string, jsonSize: SearchResult -> nat) {

    function ParseTerms(query: string): (r: Result<seq<string>, StoreError>) {
      if ByteLen(query) > MAX_QUERY_BYTES then Failure(InvalidQuery)
      else
        var words := Words(query);
        if words == [] then Failure(InvalidQuery) else Success(seq(|words|, i requires 0 <= i < |words| => lower(words[i])))
    }

    predicate HasTerm(doc: FetchedDocument, term: string) {
      || Contains(lower(doc.id), term) || Contains(lower(doc.metadata.title), term)
      || Contains(lower(doc.metadata.description), term) || Contains(lower(doc.text), term)
    }

    predicate Matches(doc: FetchedDocument, terms: seq<string>) {
      forall t | t in terms :: HasTerm(doc, t)
    }

    function TermScore(doc: FetchedDocument, term: string): (r: nat) {
      (if Contains(lower(doc.id), term) then 100 else 0)
      + (if Contains(lower(doc.metadata.title), term) then 80 else 0)
      + (if Contains(lower(doc.metadata.description), term) then 50 else 0)
      + (if Contains(lower(doc.text), term) then 10 else 0)
    }

    function Score(doc: FetchedDocument, terms: seq<string>): (r: nat) {
      if terms == [] then 0 else Score(doc, terms[..|terms| - 1]) + TermScore(doc, terms[|terms| - 1])
    }

    function MatchIndex(lines: seq<string>, term: string): (i: nat)
      ensures i <= |lines| && (lines != [] ==> i < |lines|)
      ensures (exists j | 0 <= j < |lines| :: Contains(lower(lines[j]), term)) ==> Contains(lower(lines[i]), term)
      ensures forall j | 0 <= j < i :: !Contains(lower(lines[j]), term)
    {
      FirstMatch(lines, term, 0)
    }

    function FirstMatch(lines: seq<string>, term: string, from: nat): (i: nat)
      requires from <= |lines| && forall j | 0 <= j < from :: !Contains(lower(lines[j]), term)
      ensures i <= |lines| && (lines != [] ==> i < |lines|)
      ensures (exists j | 0 <= j < |lines| :: Contains(lower(lines[j]), term)) ==> Contains(lower(lines[i]), term)
      ensures forall j | 0 <= j < i :: !Contains(lower(lines[j]), term)
      decreases |lines| - from
    {
      if from == |lines| then 0
      else if Contains(lower(lines[from]), term) then from
      else FirstMatch(lines, term, from + 1)
    }

    function SnippetOf(text: string, term: string): (r: Snippet) {
      SnippetAround(Lines(text), MatchIndex(Lines(text), term))
    }

    /** The line numbers of a snippet enclose the first line with the term; there are at most five of them. */
    lemma SnippetLinesEncloseTheFirstMatch(text: string, term: string, j: nat)
      requires j < |Lines(text)| && Contains(lower(Lines(text)[j]), term)
      ensures var s, m := SnippetOf(text, term), MatchIndex(Lines(text), term);
              && |s.text| <= MAX_SNIPPET_CHARS + 1 && s.lineEnd <= |Lines(text)| && s.lineEnd < s.lineStart + 5
              && s.lineStart <= m + 1 <= s.lineEnd && m <= j && Contains(lower(Lines(text)[m]), term)
              && (forall i: nat | i < m :: !Contains(lower(Lines(text)[i]), term))
              && s.lineStart == (if m < 2 then 1 else m - 1) && s.lineEnd == (if m + 3 < |Lines(text)| then m + 3 else |Lines(text)|)
              && var joined := JoinLines(Lines(text)[s.lineStart - 1..s.lineEnd]);
              s.text == if |joined| <= 600 then joined else joined[..600] + "\U{2026}"
    {
      assert MatchIndex(Lines(text), term) <= j;
    }

    /**
      The snippet shows the first match whole exactly when the lines up to it fit in 600 characters; one more will do
      when it happens to be the ellipsis that marks the cut.
     */
    lemma MatchIsShownExactlyWhenItFits(text: string, term: string)
      requires Lines(text) != []
      ensures var shown := UpTo(Lines(text), MatchIndex(Lines(text), term));
              shown <= SnippetOf(text, term).text <==>
              |shown| <= MAX_SNIPPET_CHARS || (|shown| == MAX_SNIPPET_CHARS + 1 && shown[MAX_SNIPPET_CHARS..] == ELLIPSIS)
    {
      LineIsShownExactlyWhenItFits(Lines(text), MatchIndex(Lines(text), term));
    }

    /** A long line before it hides the match altogether. */
    lemma SnippetMayHideTheMatch(before: string, term: string)
      requires |before| == MAX_SNIPPET_CHARS && '\n' !in before && before[MAX_SNIPPET_CHARS - 1] != '\r' && lower(before) == before && lower(term) == term
      requires term != "" && '\n' !in term && (forall c | c in term :: c !in before && [c] != ELLIPSIS)
      ensures var text := before + "\n" + term;
              && Lines(text) == [before, term] && Contains(lower(Lines(text)[1]), term)
              && SnippetOf(text, term).text == before + ELLIPSIS && !Contains(SnippetOf(text, term).text, term)
    {
      var text := before + "\n" + term;
      TwoLines(before, term);
      NoneFound(before, term);
      WholeIsFound(term);
      var lines := Lines(text);
      assert Contains(lower(lines[1]), term) && !Contains(lower(lines[0]), term);
      assert MatchIndex(lines, term) == 1;
      assert [before, term][0..2] == [before, term] && [before, term][1..] == [term];
      assert JoinLines([before, term]) == before + "\n" + term;
      NoneFound(before + ELLIPSIS, term);
    }

    function ResultOf(doc: FetchedDocument, terms: seq<string>): (r: Scored)
      requires terms != []
    {
      var s := SnippetOf(doc.text, terms[0]);
      Scored(Score(doc, terms), SearchResult(doc.id, doc.metadata.title, s.text, doc.metadata.description, s.lineStart, s.lineEnd))
    }

    /** What one candidate contributes: nothing when it has gone, an error when it cannot be read. */
    function ScoreDocument(kb: KnowledgeBase, scope: AccessScope, terms: seq<string>, id: string): (r: Result<seq<Scored>, StoreError>)
      requires terms != []
    {
      match store.ReadForSearch(kb, scope, id)
      case Success(doc) => Success(if Matches(doc, terms) then [ResultOf(doc, terms)] else [])
      case Failure(e) => if e == NotFound then Success([]) else Failure(e)
    }

    function Scorer(kb: KnowledgeBase, scope: AccessScope, terms: seq<string>): (r: string -> Result<seq<Scored>, StoreError>)
      requires terms != []
    {
      (id: string) => ScoreDocument(kb, scope, terms, id)
    }

    function ScoreAll(kb: KnowledgeBase, scope: AccessScope, terms: seq<string>, ids: seq<string>): (r: Result<seq<Scored>, StoreError>)
      requires terms != []
    {
      Gather(Scorer(kb, scope, terms), ids)
    }

    function Ranking(kb: KnowledgeBase, scope: AccessScope, terms: seq<string>): (r: Result<seq<Scored>, StoreError>)
      requires terms != []
    {
      match store.Candidates(kb, scope)
      case Failure(e) => Failure(e)
      case Success(ids) =>
        match ScoreAll(kb, scope, terms, ids)
        case Failure(e) => Failure(e)
        case Success(scored) => Success(Sorting.Sort(Before, scored))
    }

    /** A readable candidate with every term, scored. */
    predicate IsMatch(kb: KnowledgeBase, scope: AccessScope, terms: seq<string>, id: string, s: Scored)
      requires terms != []
    {
      var read := store.ReadForSearch(kb, scope, id);
      read.Success? && Matches(read.value, terms) && s == ResultOf(read.value, terms)
    }

    predicate IsMatchAmong(kb: KnowledgeBase, scope: AccessScope, terms: seq<string>, ids: seq<string>, s: Scored)
      requires terms != []
    {
      exists id | id in ids :: IsMatch(kb, scope, terms, id, s)
    }

    lemma ScoredAreTheMatches(kb: KnowledgeBase, scope: AccessScope, terms: seq<string>, ids: seq<string>, s: Scored)
      requires terms != [] && ScoreAll(kb, scope, terms, ids).Success?
      ensures s in ScoreAll(kb, scope, terms, ids).value <==> IsMatchAmong(kb, scope, terms, ids, s)
    {
      var f := Scorer(kb, scope, terms);
      GatheredAreGiven(f, ids, s);
      if s in ScoreAll(kb, scope, terms, ids).value {
        var id :| id in ids && Gives(f, id, s);
        OneScore(kb, scope, terms, id, s);
      }
      if IsMatchAmong(kb, scope, terms, ids, s) {
        var id :| id in ids && IsMatch(kb, scope, terms, id, s);
        OneScore(kb, scope, terms, id, s);
      }
    }

    lemma OneScore(kb: KnowledgeBase, scope: AccessScope, terms: seq<string>, id: string, s: Scored)
      requires terms != []
      ensures Gives(Scorer(kb, scope, terms), id, s) <==> IsMatch(kb, scope, terms, id, s)
      ensures IsAtMostOne(Scorer(kb, scope, terms), id)
    {
    }

    /** The ranking lists exactly the readable candidates with every term, in strict order. */
    lemma RankingIsExactlyTheMatches(kb: KnowledgeBase, scope: AccessScope, terms: seq<string>)
      requires terms != [] && Ranking(kb, scope, terms).Success?
      ensures var r := Ranking(kb, scope, terms).value;
              && Sorting.Ascending(Before, r)
              && forall s :: s in r <==> IsMatchAmong(kb, scope, terms, store.Candidates(kb, scope).value, s)
    {
      var ids := store.Candidates(kb, scope).value;
      CandidatesAreDistinct(kb, scope);
      forall id ensures IsAtMostOne(Scorer(kb, scope, terms), id) {
        OneScore(kb, scope, terms, id, Scored(0, SearchResult("", "", "", "", 0, 0)));
      }
      GatheredIdsAreDistinct(Scorer(kb, scope, terms), ids);
      var all := ScoreAll(kb, scope, terms, ids).value;
      DistinctIdsCompare(all);
      BeforeIsAStrictOrder();
      Sorting.SortAscends(Before, all);
      forall s ensures s in all <==> IsMatchAmong(kb, scope, terms, ids, s) {
        ScoredAreTheMatches(kb, scope, terms, ids, s);
      }
    }

    lemma CandidatesAreDistinct(kb: KnowledgeBase, scope: AccessScope)
      requires store.Candidates(kb, scope).Success?
      ensures var ids := store.Candidates(kb, scope).value; forall i, j | 0 <= i < j < |ids| :: ids[i] != ids[j]
    {
      store.CandidatesAreTheListedIds(kb, scope, "");
      LessIsAStrictOrder();
    }

    /** And there is no other way to rank them. */
    lemma RankingIsUnique(kb: KnowledgeBase, scope: AccessScope, terms: seq<string>, other: seq<Scored>)
      requires terms != [] && Ranking(kb, scope, terms).Success?
      requires Sorting.Ascending(Before, other)
      requires forall s :: s in other <==> IsMatchAmong(kb, scope, terms, store.Candidates(kb, scope).value, s)
      ensures other == Ranking(kb, scope, terms).value
    {
      RankingIsExactlyTheMatches(kb, scope, terms);
      BeforeIsAStrictOrder();
      Sorting.AscendingIsUnique(Before, other, Ranking(kb, scope, terms).value);
    }

    // ---- What is found, word by word ----

    ghost predicate Occurs(text: string, word: string) {
      exists i: nat :: FrontMatter.OccursAt(lower(text), lower(word), i)
    }

    lemma ContainsExactly(text: string, word: string)
      ensures Contains(lower(text), lower(word)) <==> Occurs(text, word)
    {
    }

    ghost predicate HasWord(doc: FetchedDocument, word: string) {
      || Occurs(doc.id, word) || Occurs(doc.metadata.title, word)
      || Occurs(doc.metadata.description, word) || Occurs(doc.text, word)
    }

    /** How many of the words occur in the text. */
    ghost function CountIn(words: seq<string>, text: string): (n: nat) {
      if words == [] then 0 else CountIn(words[..|words| - 1], text) + if Occurs(text, words[|words| - 1]) then 1 else 0
    }

    /** The candidate can be read and has every word; its result is its own, at 100, 80, 50 and 10 a word for the four fields. */
    ghost predicate IsFound(kb: KnowledgeBase, scope: AccessScope, query: string, id: string, s: Scored)
      requires Words(query) != []
    {
      var read := store.ReadForSearch(kb, scope, id);
      && read.Success?
      && var doc := read.value;
      && (forall w | w in Words(query) :: HasWord(doc, w))
      && s.score == 100 * CountIn(Words(query), id) + 80 * CountIn(Words(query), doc.metadata.title)
                    + 50 * CountIn(Words(query), doc.metadata.description) + 10 * CountIn(Words(query), doc.text)
      && var found := SnippetOf(doc.text, lower(Words(query)[0]));
      && s.result == SearchResult(id, doc.metadata.title, found.text, doc.metadata.description, found.lineStart, found.lineEnd)
    }

    function Lowered(words: seq<string>): (terms: seq<string>) {
      seq(|words|, i requires 0 <= i < |words| => lower(words[i]))
    }

    lemma {:induction false} ScoresExactly(doc: FetchedDocument, words: seq<string>)
      ensures Score(doc, Lowered(words)) ==
              100 * CountIn(words, doc.id) + 80 * CountIn(words, doc.metadata.title)
              + 50 * CountIn(words, doc.metadata.description) + 10 * CountIn(words, doc.text)
    {
      if words != [] {
        var n := |words| - 1;
        ScoresExactly(doc, words[..n]);
        assert Lowered(words)[..n] == Lowered(words[..n]);
        ContainsExactly(doc.id, words[n]);
        ContainsExactly(doc.metadata.title, words[n]);
        ContainsExactly(doc.metadata.description, words[n]);
        ContainsExactly(doc.text, words[n]);
      }
    }

    lemma MatchesExactly(doc: FetchedDocument, words: seq<string>)
      ensures Matches(doc, Lowered(words)) <==> forall w | w in words :: HasWord(doc, w)
    {
      forall w ensures HasTerm(doc, lower(w)) <==> HasWord(doc, w) {
        ContainsExactly(doc.id, w);
        ContainsExactly(doc.metadata.title, w);
        ContainsExactly(doc.metadata.description, w);
        ContainsExactly(doc.text, w);
      }
      if Matches(doc, Lowered(words)) {
        forall w | w in words ensures HasWord(doc, w) {
          var i :| 0 <= i < |words| && words[i] == w;
          assert Lowered(words)[i] in Lowered(words);
        }
      }
    }

    lemma FindsExactly(kb: KnowledgeBase, scope: AccessScope, query: string, id: string, s: Scored)
      requires Words(query) != []
      ensures IsMatch(kb, scope, Lowered(Words(query)), id, s) <==> IsFound(kb, scope, query, id, s)
    {
      var read := store.ReadForSearch(kb, scope, id);
      if read.Success? {
        MatchesExactly(read.value, Words(query));
        ScoresExactly(read.value, Words(query));
      }
    }

    /** Exactly what is found, the higher score first, ids in ascending order within a score. */
    ghost predicate RanksWhatIsFound(kb: KnowledgeBase, scope: AccessScope, query: string, ranking: seq<Scored>)
      requires Words(query) != [] && store.Candidates(kb, scope).Success?
    {
      && (forall i, j | 0 <= i < j < |ranking| ::
            || ranking[i].score > ranking[j].score
            || (ranking[i].score == ranking[j].score && Less(ranking[i].result.id, ranking[j].result.id)))
      && forall s :: s in ranking <==> exists id | id in store.Candidates(kb, scope).value :: IsFound(kb, scope, query, id, s)
    }

    lemma RankingRanksWhatIsFound(kb: KnowledgeBase, scope: AccessScope, query: string)
      requires Words(query) != [] && Ranking(kb, scope, Lowered(Words(query))).Success?
      ensures store.Candidates(kb, scope).Success? && RanksWhatIsFound(kb, scope, query, Ranking(kb, scope, Lowered(Words(query))).value)
    {
      var terms := Lowered(Words(query));
      RankingIsExactlyTheMatches(kb, scope, terms);
      forall id, s ensures IsMatch(kb, scope, terms, id, s) <==> IsFound(kb, scope, query, id, s) {
        FindsExactly(kb, scope, query, id, s);
      }
    }

    /** A candidate that is there but cannot be read. */
    ghost predicate IsUnreadable(kb: KnowledgeBase, scope: AccessScope, id: string, e: StoreError) {
      e != NotFound && store.ReadForSearch(kb, scope, id) == Failure(e)
    }

    lemma FailsExactly(kb: KnowledgeBase, scope: AccessScope, terms: seq<string>, id: string, e: StoreError)
      requires terms != []
      ensures Scorer(kb, scope, terms)(id) == Failure(e) <==> IsUnreadable(kb, scope, id, e)
    {
    }

    lemma RankingFailsExactly(kb: KnowledgeBase, scope: AccessScope, terms: seq<string>)
      requires terms != [] && store.Candidates(kb, scope).Success?
      ensures var ids := store.Candidates(kb, scope).value;
              if Ranking(kb, scope, terms).Failure? then exists id | id in ids :: IsUnreadable(kb, scope, id, Ranking(kb, scope, terms).error)
              else forall id, e | id in ids :: !IsUnreadable(kb, scope, id, e)
    {
      var f, ids := Scorer(kb, scope, terms), store.Candidates(kb, scope).value;
      GatherFailsExactly(f, ids);
      if Gather(f, ids).Failure? {
        var id :| id in ids && f(id) == Failure(Gather(f, ids).error);
        FailsExactly(kb, scope, terms, id, Gather(f, ids).error);
      } else {
        forall id, e | id in ids ensures !IsUnreadable(kb, scope, id, e) {
          FailsExactly(kb, scope, terms, id, e);
        }
      }
    }

    predicate IsQuery(query: string, limit: Option<nat>) {
      ByteLen(query) <= 256 && Words(query) != [] && (limit.Some? ==> 1 <= limit.value <= 20)
    }

    /** The page of the ranking of what is found, ten results unless the caller says otherwise. */
    ghost predicate IsPageOfFound(kb: KnowledgeBase, scope: AccessScope, query: string, limit: Option<nat>, maxBytes: nat, r: Response)
      requires Words(query) != [] && store.Candidates(kb, scope).Success?
    {
      exists ranking: seq<Scored> ::
        && RanksWhatIsFound(kb, scope, query, ranking)
        && IsPage(Results(ranking), if limit.Some? then limit.value else 10, maxBytes, jsonSize, r)
    }

    /** Every answer, with its reason. */
    ghost predicate IsAnswer(kb: KnowledgeBase, scope: AccessScope, query: string, limit: Option<nat>, maxBytes: nat, r: Result<Response, StoreError>) {
      if !IsQuery(query, limit) then r == Failure(InvalidQuery)
      else
        match store.Candidates(kb, scope)
        case Failure(e) => r == Failure(e)
        case Success(ids) =>
          match r
          case Success(page) =>
            IsPageOfFound(kb, scope, query, limit, maxBytes, page) && forall id, e | id in ids :: !IsUnreadable(kb, scope, id, e)
          case Failure(e) => exists id | id in ids :: IsUnreadable(kb, scope, id, e)
    }

    lemma AnswersExactly(kb: KnowledgeBase, scope: AccessScope, query: string, limit: Option<nat>, maxBytes: nat, r: Result<Response, StoreError>)
      requires Answers(kb, scope, query, limit, maxBytes, r)
      ensures IsAnswer(kb, scope, query, limit, maxBytes, r)
    {
      if IsQuery(query, limit) && store.Candidates(kb, scope).Success? {
        var terms := Lowered(Words(query));
        assert ParseTerms(query) == Success(terms);
        RankingFailsExactly(kb, scope, terms);
        if Ranking(kb, scope, terms).Success? { RankingRanksWhatIsFound(kb, scope, query); }
      }
    }

    /** Read off a response: each result is that of a readable candidate with every word. */
    lemma EveryResultHasEveryWord(kb: KnowledgeBase, scope: AccessScope, query: string, limit: Option<nat>, maxBytes: nat, r: Response, i: nat)
      requires IsQuery(query, limit) && IsAnswer(kb, scope, query, limit, maxBytes, Success(r)) && i < |r.results|
      ensures var read := store.ReadForSearch(kb, scope, r.results[i].id);
              && read.Success? && (forall w | w in Words(query) :: HasWord(read.value, w))
              && r.results[i].title == read.value.metadata.title && r.results[i].description == read.value.metadata.description
    {
      var ranking: seq<Scored> :|
        && RanksWhatIsFound(kb, scope, query, ranking)
        && IsPage(Results(ranking), if limit.Some? then limit.value else 10, maxBytes, jsonSize, r);
      PageResult(ranking, if limit.Some? then limit.value else 10, maxBytes, jsonSize, r, i);
      assert ranking[i] in ranking;
    }

    predicate ValidLimit(limit: Option<nat>) {
      limit.None? || 1 <= limit.value <= MAX_LIMIT
    }

    function LimitOf(limit: Option<nat>): (r: nat) {
      if limit.Some? then limit.value else DEFAULT_LIMIT
    }

    /** What a search answers. */
    predicate Answers(kb: KnowledgeBase, scope: AccessScope, query: string, limit: Option<nat>, maxBytes: nat, r: Result<Response, StoreError>) {
      match ParseTerms(query)
      case Failure(e) => r == Failure(e)
      case Success(terms) =>
        if !ValidLimit(limit) then r == Failure(InvalidQuery)
        else
          match Ranking(kb, scope, terms)
          case Failure(e) => r == Failure(e)
          case Success(ranking) => r.Success? && IsPage(Results(ranking), LimitOf(limit), maxBytes, jsonSize, r.value)
    }

    method Search(kb: KnowledgeBase, scope: AccessScope, query: string, limit: Option<nat>, maxBytes: nat)
      returns (r: Result<Response, StoreError>)
      ensures Answers(kb, scope, query, limit, maxBytes, r)
      ensures IsAnswer(kb, scope, query, limit, maxBytes, r)
    {
      r := Respond(kb, scope, query, limit, maxBytes);
      AnswersExactly(kb, scope, query, limit, maxBytes, r);
    }

    method Respond(kb: KnowledgeBase, scope: AccessScope, query: string, limit: Option<nat>, maxBytes: nat)
      returns (r: Result<Response, StoreError>)
      ensures Answers(kb, scope, query, limit, maxBytes, r)
    {
      var terms := ParseTerms(query);
      if terms.Failure? { return Failure(terms.error); }
      if !ValidLimit(limit) { return Failure(InvalidQuery); }
      var ids := store.CandidateIds(kb, scope);
      if ids.Failure? { return Failure(ids.error); }
      var scored := Collect(kb, scope, terms.value, ids.value);
      if scored.Failure? { return Failure(scored.error); }
      var page := Fill(Sorting.Sort(Before, scored.value), LimitOf(limit), maxBytes);
      return Success(page);
    }

    method Collect(kb: KnowledgeBase, scope: AccessScope, terms: seq<string>, ids: seq<string>) returns (r: Result<seq<Scored>, StoreError>)
      requires terms != []
      ensures r == ScoreAll(kb, scope, terms, ids)
    {
      var all := [];
      for i := 0 to |ids|
        invariant ScoreAll(kb, scope, terms, ids[..i]) == Success(all)
      {
        assert ids[..i + 1][..i] == ids[..i];
        var one := ScoreDocument(kb, scope, terms, ids[i]);
        if one.Failure? {
          GatherFailureStays(Scorer(kb, scope, terms), ids, i + 1);
          return one;
        }
        all := all + one.value;
      }
      assert ids[..|ids|] == ids;
      return Success(all);
    }

    /** The loop that fills a response: push, measure, pop. */
    method Fill(scored: seq<Scored>, limit: nat, maxBytes: nat) returns (r: Response)
      ensures IsPage(Results(scored), limit, maxBytes, jsonSize, r)
    {
      ghost var ranking := Results(scored);
      ResultsOfPrefix(scored, |scored|);
      var available := |scored|;
      var results: seq<SearchResult> := [];
      var truncated := available > limit;
      ghost var flag := truncated;
      for i := 0 to Min(limit, available)
        invariant results == ranking[..i] && truncated == flag
        invariant results != [] ==> ResponseSize(Response(results, flag), jsonSize) <= maxBytes
      {
        results := results + [scored[i].result];
        assert results == ranking[..i + 1];
        if ResponseSize(Response(results, truncated), jsonSize) > maxBytes {
          results := results[..|results| - 1];
          truncated := true;
          assert results == ranking[..i];
          PageStoppedAt(ranking, limit, maxBytes, jsonSize, i);
          return Response(results, truncated);
        }
      }
      PageFilled(ranking, limit, maxBytes, jsonSize);
      return Response(results, truncated);
    }

    // ---- What a Tech caller can learn ----

    lemma SameScores(a: KnowledgeBase, b: KnowledgeBase, terms: seq<string>, ids: seq<string>)
      requires terms != [] && AgreePublicly(a, b, store.dirs) && forall id | id in ids :: ParseId(id) == Success(id)
      ensures ScoreAll(a, Tech, terms, ids) == ScoreAll(b, Tech, terms, ids)
    {
      forall id | id in ids ensures ScoreDocument(a, Tech, terms, id) == ScoreDocument(b, Tech, terms, id) {
        store.SameReads(a, b, id, store.maxSearchFileBytes);
      }
      SameGather(Scorer(a, Tech, terms), Scorer(b, Tech, terms), ids);
    }

    /** On knowledge bases that agree on what is public, a Tech caller's search has one answer, errors included. */
    lemma TechSearchSeesOnlyThePublicPart(
      a: KnowledgeBase, b: KnowledgeBase, query: string, limit: Option<nat>, maxBytes: nat,
      ra: Result<Response, StoreError>, rb: Result<Response, StoreError>)
      requires AgreePublicly(a, b, store.dirs) && IsSound(store.dirs)
      requires Answers(a, Tech, query, limit, maxBytes, ra) && Answers(b, Tech, query, limit, maxBytes, rb)
      ensures ra == rb
    {
      if ParseTerms(query).Success? && ValidLimit(limit) {
        var terms := ParseTerms(query).value;
        SameRanking(a, b, terms);
        if Ranking(a, Tech, terms).Success? {
          PageIsUnique(Results(Ranking(a, Tech, terms).value), LimitOf(limit), maxBytes, jsonSize, ra.value, rb.value);
        }
      }
    }

    lemma SameRanking(a: KnowledgeBase, b: KnowledgeBase, terms: seq<string>)
      requires AgreePublicly(a, b, store.dirs) && IsSound(store.dirs) && terms != []
      ensures Ranking(a, Tech, terms) == Ranking(b, Tech, terms)
    {
      store.TechSeesOnlyThePublicPart(a, b, "");
      var ids := store.Candidates(a, Tech);
      if ids.Success? {
        forall id | id in ids.value ensures ParseId(id) == Success(id) {
          store.CandidatesAreAllowed(a, Tech, id);
        }
        SameScores(a, b, terms, ids.value);
      }
    }
  }

  lemma BeforeIsAStrictOrder()
    ensures Sorting.StrictOrder(Before)
  {
    LessIsAStrictOrder();
  }

  lemma DistinctIdsCompare(all: seq<Scored>)
    requires forall i, j | 0 <= i < j < |all| :: all[i].result.id != all[j].result.id
    ensures Sorting.Comparable(Before, all) && forall i, j | 0 <= i < j < |all| :: all[i] != all[j]
  {
    LessIsAStrictOrder();
    forall x, y | x in all && y in all && x != y ensures Before(x, y) || Before(y, x) {
      var ids := [x.result.id, y.result.id];
      assert Sorting.Comparable(Less, ids) && ids[0] in ids && ids[1] in ids;
    }
  }
}
