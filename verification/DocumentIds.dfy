/** Document ids: relative Unix paths (`DocumentId` in src/document.rs, `std::path::Components`). */
module DocumentIds {
  import opened Common
  import opened Text

  datatype StoreError = NotFound | InvalidDocumentId | InvalidUtf8 | InvalidQuery | Io

  // ---- Paths ----

  /** The text between slashes. */
  function Pieces(path: string): (r: seq<string>)
    ensures r != []
  {
    if path == "" then [""]
    else
      var rest := Pieces(path[1..]);
      if path[0] == '/' then [""] + rest else [[path[0]] + rest[0]] + rest[1..]
  }

  datatype Component = RootDir | CurDir | ParentDir | Normal(name: string)

  /** Repeated slashes and `.` pieces vanish, except for a `.` at the very front. */
  function PieceComponents(pieces: seq<string>): (r: seq<Component>) {
    if pieces == [] then []
    else (if pieces[0] == "" || pieces[0] == "." then [] else if pieces[0] == ".." then [ParentDir] else [Normal(pieces[0])])
         + PieceComponents(pieces[1..])
  }

  function Components(path: string): (r: seq<Component>) {
    (if path != "" && path[0] == '/' then [RootDir] else if Pieces(path)[0] == "." then [CurDir] else [])
    + PieceComponents(Pieces(path))
  }

  function FileName(path: string): (r: Option<string>) {
    var c := Components(path);
    if c != [] && c[|c| - 1].Normal? then Some(c[|c| - 1].name) else None
  }

  /** Position of the last dot; the length when there is none. */
  function LastDot(name: string): (i: nat)
    ensures i <= |name|
  {
    if name == "" then 0
    else if name[|name| - 1] == '.' then |name| - 1
    else
      var i := LastDot(name[..|name| - 1]);
      if i == |name| - 1 then |name| else i
  }

  /** `Path::extension` of a file name: none without a dot or with its only dot in front. */
  function ExtensionOf(name: string): (r: Option<string>) {
    var i := LastDot(name);
    if i == 0 || i == |name| then None else Some(name[i + 1..])
  }

  function StemOf(name: string): (r: string) {
    var i := LastDot(name);
    if i == 0 then name else name[..i]
  }

  function Extension(path: string): (r: Option<string>) {
    match FileName(path)
    case None => None
    case Some(name) => ExtensionOf(name)
  }

  // ---- Ids ----

  predicate IsAsciiLetter(c: char) {
    'a' <= c <= 'z' || 'A' <= c <= 'Z'
  }

  predicate IsVisible(c: Component) {
    c.Normal? && c.name != "" && c.name[0] != '.'
  }

  /** `DocumentId::parse`. */
  function ParseId(value: string): (r: Result<string, StoreError>) {
    if value == "" || ByteLen(value) > 512 || '\0' in value then Failure(InvalidDocumentId)
    else if value[0] == '/' || '\\' in value then Failure(InvalidDocumentId)
    else if |value| >= 2 && IsAsciiLetter(value[0]) && value[1] == ':' then Failure(InvalidDocumentId)
    else if Extension(value) != Some("md") then Failure(InvalidDocumentId)
    else if exists c | c in Components(value) :: !IsVisible(c) then Failure(InvalidDocumentId)
    else Success(value)
  }

  function TopLevel(id: string): (r: Option<string>) {
    var c := Components(id);
    if c != [] && c[0].Normal? then Some(c[0].name) else None
  }

  // ---- Facts ----

  lemma {:induction false} PiecesOfJoin(a: string, b: string)
    requires '/' !in a
    ensures Pieces(a + "/" + b) == [a] + Pieces(b)
  {
    if a == "" {
      assert a + "/" + b == "/" + b && ("/" + b)[1..] == b;
    } else {
      PiecesOfJoin(a[1..], b);
      assert (a + "/" + b)[1..] == a[1..] + "/" + b;
      assert a == [a[0]] + a[1..];
    }
  }

  lemma {:induction false} LonePiece(a: string)
    requires '/' !in a
    ensures Pieces(a) == [a]
  {
    if a != "" {
      LonePiece(a[1..]);
      assert a == [a[0]] + a[1..];
    }
  }

  lemma {:induction false} PiecesHoldNoSlash(path: string)
    ensures forall p | p in Pieces(path) :: '/' !in p
  {
    if path != "" { PiecesHoldNoSlash(path[1..]); }
  }

  lemma AcceptedParts(id: string)
    requires ParseId(id) == Success(id)
    ensures id != "" && id[0] != '/' && Components(id) != []
    ensures forall c | c in Components(id) :: IsVisible(c)
  {
  }

  /** An accepted id names its top level first, as a plain visible name. */
  lemma AcceptedIdStartsAtItsTopLevel(id: string)
    requires ParseId(id) == Success(id)
    ensures TopLevel(id) == Some(Pieces(id)[0])
    ensures Pieces(id)[0] != "" && Pieces(id)[0][0] != '.' && '/' !in Pieces(id)[0]
  {
    AcceptedParts(id);
    PiecesHoldNoSlash(id);
    FirstPieceStarts(id);
    FirstComponent(id);
    assert Components(id)[0] in Components(id);
  }

  lemma FirstComponent(path: string)
    requires path != "" && path[0] != '/' && Pieces(path)[0] != ""
    ensures Components(path) != []
    ensures var p := Pieces(path)[0];
            Components(path)[0] == if p == "." then CurDir else if p == ".." then ParentDir else Normal(p)
  {
  }

  /** And nothing in it leads upwards. */
  lemma NothingLeadsUp(id: string)
    requires ParseId(id) == Success(id)
    ensures ".." !in Pieces(id)
  {
    AcceptedParts(id);
    ParentStays(Pieces(id));
    assert ParentDir in PieceComponents(Pieces(id)) ==> ParentDir in Components(id);
  }

  lemma FirstPieceStarts(path: string)
    requires path != "" && path[0] != '/'
    ensures Pieces(path)[0] != ""
  {
  }

  lemma {:induction false} ParentStays(pieces: seq<string>)
    ensures ".." in pieces ==> ParentDir in PieceComponents(pieces)
  {
    if pieces != [] { ParentStays(pieces[1..]); }
  }

  /** A path built below a plain name has that name as its top level. */
  lemma TopLevelOfJoin(top: string, rest: string)
    requires top != "" && top[0] != '.' && '/' !in top
    ensures TopLevel(top + "/" + rest) == Some(top) && TopLevel(top) == Some(top)
  {
    PiecesOfJoin(top, rest);
    LonePiece(top);
  }

  lemma MarkdownExtension(stem: string)
    requires stem != ""
    ensures ExtensionOf(stem + ".md") == Some("md")
  {
    var name, n := stem + ".md", |stem|;
    var m := name[..n + 2];
    assert m[..n + 1][n] == '.' && LastDot(m[..n + 1]) == n;
    assert LastDot(m) == n;
    assert name[n + 1..] == "md";
  }

  lemma LoneNameIsAnId(name: string)
    requires |name| >= 2 && ByteLen(name) <= 512 && name[0] != '.' && name[1] != ':'
    requires '/' !in name && '\\' !in name && '\0' !in name && ExtensionOf(name) == Some("md")
    ensures ParseId(name) == Success(name) && Pieces(name) == [name]
  {
    LoneComponent(name);
    LoneParts(name);
    PartsAreAccepted(name);
  }

  lemma LoneParts(name: string)
    requires Components(name) == [Normal(name)] && name != "" && name[0] != '.'
    ensures Extension(name) == ExtensionOf(name) && forall c | c in Components(name) :: IsVisible(c)
  {
  }

  lemma LoneComponent(name: string)
    requires name != "" && name[0] != '.' && '/' !in name
    ensures Pieces(name) == [name] && Components(name) == [Normal(name)]
  {
    LonePiece(name);
    assert [name][1..] == [] && PieceComponents([name]) == [Normal(name)] + PieceComponents([]);
  }

  // ---- Accepted ids, piece by piece ----

  /** Pieces that a path walks past without naming anything. */
  predicate IsSkipped(piece: string) {
    piece == "" || piece == "."
  }

  /** A name with something before its `.md`. */
  predicate IsMarkdown(name: string) {
    |name| > 3 && name[|name| - 3..] == ".md"
  }

  lemma {:induction false} LastDotIs(name: string)
    ensures LastDot(name) < |name| ==> name[LastDot(name)] == '.'
    ensures forall i | LastDot(name) < i < |name| :: name[i] != '.'
  {
    if name != "" && name[|name| - 1] != '.' { LastDotIs(name[..|name| - 1]); }
  }

  lemma {:induction false} NoDotMeansLength(name: string)
    ensures LastDot(name) == |name| ==> '.' !in name
  {
    if name != "" && name[|name| - 1] != '.' {
      NoDotMeansLength(name[..|name| - 1]);
      assert name == name[..|name| - 1] + [name[|name| - 1]];
    }
  }

  lemma MarkdownExactly(name: string)
    ensures ExtensionOf(name) == Some("md") <==> IsMarkdown(name)
  {
    if ExtensionOf(name) == Some("md") {
      LastDotIs(name);
      var i := LastDot(name);
      assert name[i + 1..] == "md" && |name| == i + 3;
      assert name[|name| - 3..] == [name[i]] + name[i + 1..];
    }
    if IsMarkdown(name) {
      assert name == name[..|name| - 3] + ".md";
      MarkdownExtension(name[..|name| - 3]);
    }
  }

  /** What names the file: the last piece that is not skipped. */
  predicate EndsIn(pieces: seq<string>, i: nat) {
    i < |pieces| && !IsSkipped(pieces[i]) && forall j | i < j < |pieces| :: IsSkipped(pieces[j])
  }

  function ComponentOf(piece: string): (r: Component) {
    if piece == ".." then ParentDir else Normal(piece)
  }

  lemma {:induction false} ComponentsOfPieces(pieces: seq<string>)
    ensures forall c :: c in PieceComponents(pieces) <==> exists p | p in pieces && !IsSkipped(p) :: c == ComponentOf(p)
  {
    if pieces != [] {
      ComponentsOfPieces(pieces[1..]);
      assert forall p :: p in pieces <==> p == pieces[0] || p in pieces[1..] by { assert pieces == [pieces[0]] + pieces[1..]; }
      forall c ensures c in PieceComponents(pieces) <==> exists p | p in pieces && !IsSkipped(p) :: c == ComponentOf(p) {
        assert c in PieceComponents(pieces) <==>
               c in PieceComponents(pieces[1..]) || (!IsSkipped(pieces[0]) && c == ComponentOf(pieces[0]));
      }
    }
  }

  lemma {:induction false} LastComponent(pieces: seq<string>, i: nat)
    requires EndsIn(pieces, i)
    ensures var c := PieceComponents(pieces); c != [] && c[|c| - 1] == ComponentOf(pieces[i])
  {
    if i > 0 {
      LastComponent(pieces[1..], i - 1);
    } else {
      AllSkipped(pieces[1..]);
    }
  }

  lemma {:induction false} AllSkipped(pieces: seq<string>)
    requires forall j | 0 <= j < |pieces| :: IsSkipped(pieces[j])
    ensures PieceComponents(pieces) == []
  {
    if pieces != [] { AllSkipped(pieces[1..]); }
  }

  /** The file a path names, as the last piece that is not skipped. */
  lemma {:induction false} FindEnd(pieces: seq<string>) returns (i: nat)
    requires PieceComponents(pieces) != []
    ensures EndsIn(pieces, i)
  {
    if PieceComponents(pieces[1..]) != [] {
      i := FindEnd(pieces[1..]);
      i := i + 1;
    } else {
      i := 0;
      NoneKept(pieces[1..]);
    }
  }

  lemma {:induction false} NoneKept(pieces: seq<string>)
    requires PieceComponents(pieces) == []
    ensures forall j | 0 <= j < |pieces| :: IsSkipped(pieces[j])
  {
    if pieces != [] { NoneKept(pieces[1..]); }
  }

  /**
    An id is accepted exactly when it is a short relative path without backslashes, zero characters or a drive prefix, whose
    first piece is a visible name, whose other pieces are visible names or skipped, and whose last name ends in `.md`.
   */
  ghost predicate IsAcceptable(value: string) {
    var p := Pieces(value);
    && value != "" && ByteLen(value) <= 512 && '\0' !in value && '\\' !in value
    && !(|value| >= 2 && ('a' <= value[0] <= 'z' || 'A' <= value[0] <= 'Z') && value[1] == ':')
    && p[0] != "" && (forall q | q in p :: q == "" || q[0] != '.' || (q == "." && p[0] != "."))
    && exists i: nat :: EndsIn(p, i) && IsMarkdown(p[i])
  }

  lemma AcceptsExactly(value: string)
    ensures ParseId(value) == Success(value) <==> IsAcceptable(value)
  {
    if ParseId(value) == Success(value) { AcceptedIsAcceptable(value); }
    if IsAcceptable(value) { AcceptableIsAccepted(value); }
  }

  lemma AcceptedIsAcceptable(value: string)
    requires ParseId(value) == Success(value)
    ensures IsAcceptable(value)
  {
    var p := Pieces(value);
    AcceptedParts(value);
    AcceptedIdStartsAtItsTopLevel(value);
    ComponentsOfPieces(p);
    NothingAddedInFront(value);
    forall q | q in p ensures q == "" || q[0] != '.' || q == "." {
      if !IsSkipped(q) { assert ComponentOf(q) in Components(value); }
    }
    var i := FindEnd(p);
    LastComponent(p, i);
    MarkdownExactly(p[i]);
    assert FileName(value) == Some(p[i]);
  }

  /** A path that begins with a visible name has just the components of its pieces. */
  lemma NothingAddedInFront(value: string)
    requires value != "" && value[0] != '/' && Pieces(value)[0] != "."
    ensures Components(value) == PieceComponents(Pieces(value))
  {
  }

  lemma SlashFirst(value: string)
    requires value != ""
    ensures value[0] == '/' ==> Pieces(value)[0] == ""
  {
  }

  lemma AcceptableIsAccepted(value: string)
    requires IsAcceptable(value)
    ensures ParseId(value) == Success(value)
  {
    var p := Pieces(value);
    assert p[0] in p;
    SlashFirst(value);
    NothingAddedInFront(value);
    var i: nat :| EndsIn(p, i) && IsMarkdown(p[i]);
    assert p[i] in p;
    VisiblePieces(p);
    EndsInMarkdown(value, i);
    PartsAreAccepted(value);
  }

  lemma PartsAreAccepted(value: string)
    requires value != "" && ByteLen(value) <= 512 && '\0' !in value && '\\' !in value && value[0] != '/'
    requires !(|value| >= 2 && IsAsciiLetter(value[0]) && value[1] == ':')
    requires Extension(value) == Some("md") && forall c | c in Components(value) :: IsVisible(c)
    ensures ParseId(value) == Success(value)
  {
  }

  lemma VisiblePieces(pieces: seq<string>)
    requires forall q | q in pieces :: IsSkipped(q) || q[0] != '.'
    ensures forall c | c in PieceComponents(pieces) :: IsVisible(c)
  {
    ComponentsOfPieces(pieces);
    forall c | c in PieceComponents(pieces) ensures IsVisible(c) {
      var q :| q in pieces && !IsSkipped(q) && c == ComponentOf(q);
    }
  }

  lemma EndsInMarkdown(value: string, i: nat)
    requires Components(value) == PieceComponents(Pieces(value))
    requires EndsIn(Pieces(value), i) && IsMarkdown(Pieces(value)[i]) && Pieces(value)[i][0] != '.'
    ensures Extension(value) == Some("md")
  {
    var name := Pieces(value)[i];
    assert FileName(value) == Some(name) by {
      LastComponent(Pieces(value), i);
      assert name != "..";
    }
    MarkdownExactly(name);
  }
}
