/** Printing a note and splitting it again (`render_note` in src/inbox.rs, `parse_metadata` in src/document.rs). */
module FrontMatter {
  import opened Common

  predicate StartsWith(s: string, prefix: string) {
    prefix <= s
  }

  predicate OccursAt(s: string, pattern: string, i: int) {
    0 <= i <= |s| - |pattern| && s[i..i + |pattern|] == pattern
  }

  /** `str::find`: the first occurrence. */
  function Find(s: string, pattern: string): (r: Option<nat>)
    ensures r.Some? ==> OccursAt(s, pattern, r.value) && forall i | 0 <= i < r.value :: !OccursAt(s, pattern, i)
    ensures r.None? ==> forall i :: !OccursAt(s, pattern, i)
  {
    FindFrom(s, pattern, 0)
  }

  function FindFrom(s: string, pattern: string, from: nat): (r: Option<nat>)
    requires from <= |s|
    ensures r.Some? ==> from <= r.value && OccursAt(s, pattern, r.value) && forall i | from <= i < r.value :: !OccursAt(s, pattern, i)
    ensures r.None? ==> forall i | from <= i :: !OccursAt(s, pattern, i)
    decreases |s| - from
  {
    if OccursAt(s, pattern, from) then Some(from)
    else if from == |s| then None
    else FindFrom(s, pattern, from + 1)
  }

  function TrimEndNewlines(s: string): (r: string)
    ensures r <= s
    ensures r != "" ==> r[|r| - 1] != '\n'
  {
    if s != "" && s[|s| - 1] == '\n' then TrimEndNewlines(s[..|s| - 1]) else s
  }

  /** The front matter as `render_note` stores it, from the serializer's output. */
  function FrontMatterOf(yaml: string): (r: string) {
    TrimEndNewlines(if StartsWith(yaml, "---\n") then yaml[4..] else yaml)
  }

  /** The stored front matter is the serializer's output without a leading fence line and without newlines at the end. */
  lemma {:induction false} TrimmedNewlines(s: string) returns (tail: string)
    ensures s == TrimEndNewlines(s) + tail && forall c | c in tail :: c == '\n'
  {
    if s != "" && s[|s| - 1] == '\n' {
      var shorter := TrimmedNewlines(s[..|s| - 1]);
      tail := shorter + "\n";
      assert s == s[..|s| - 1] + "\n";
      Appended(s[..|s| - 1], TrimEndNewlines(s), shorter);
    } else {
      tail := "";
    }
  }

  lemma Appended(text: string, a: string, b: string)
    requires text == a + b
    ensures text + "\n" == a + (b + "\n")
  {
  }

  lemma FrontMatterIs(yaml: string) returns (tail: string)
    ensures yaml == (if StartsWith(yaml, "---\n") then "---\n" else "") + FrontMatterOf(yaml) + tail
    ensures (forall c | c in tail :: c == '\n') && (FrontMatterOf(yaml) != "" ==> FrontMatterOf(yaml)[|FrontMatterOf(yaml)| - 1] != '\n')
  {
    var fence := if StartsWith(yaml, "---\n") then "---\n" else "";
    var rest := if StartsWith(yaml, "---\n") then yaml[4..] else yaml;
    tail := TrimmedNewlines(rest);
    Rejoined(yaml, fence, rest, FrontMatterOf(yaml), tail);
  }

  lemma Rejoined(text: string, a: string, rest: string, b: string, c: string)
    requires text == a + rest && rest == b + c
    ensures text == a + b + c
  {
  }

  const FENCE: string := "\n---"
  const DELIMITER: string := "\n---\n"

  function WithFinalNewline(body: string): (r: string) {
    if body == "" || body[|body| - 1] == '\n' then body else body + "\n"
  }

  function NoteText(front: string, body: string): (r: string) {
    "---\n" + front + "\n---\n\n" + WithFinalNewline(body)
  }

  /** `render_note` after serialization; `None` is `InvalidTitle`. */
  method RenderNote(yaml: string, body: string) returns (r: Option<string>)
    ensures r == if Find(FrontMatterOf(yaml), FENCE).Some? then None else Some(NoteText(FrontMatterOf(yaml), body))
  {
    var frontMatter := FrontMatterOf(yaml);
    if Find(frontMatter, FENCE).Some? { return None; }
    var note := "";
    note := note + "---\n";
    note := note + frontMatter;
    note := note + "\n---\n\n";
    ghost var head := note;
    note := note + body;
    assert body != "" ==> note[|note| - 1] == body[|body| - 1];
    if note[|note| - 1] != '\n' {
      note := note + "\n";
      assert note == head + (body + "\n");
    }
    assert head == "---\n" + frontMatter + "\n---\n\n";
    return Some(note);
  }

  /** The delimiter search of `parse_metadata`: front matter and everything after the delimiter. */
  function Split(text: string): (r: Option<(string, string)>) {
    if !StartsWith(text, "---\n") then None
    else
      var rest := text[4..];
      match Find(rest, DELIMITER)
      case None => None
      case Some(end) => Some((rest[..end], rest[end + |DELIMITER|..]))
  }

  /** An occurrence that ends inside the front matter shows a fence there. */
  lemma DelimiterShowsFence(front: string, tail: string, i: nat)
    requires i + 4 <= |front| && OccursAt(front + DELIMITER + tail, DELIMITER, i)
    ensures OccursAt(front, FENCE, i)
  {
    var rest := front + DELIMITER + tail;
    assert rest[i..i + 5][..4] == DELIMITER[..4] == FENCE;
    assert front[i..i + 4] == rest[i..i + 4] == rest[i..i + 5][..4];
  }

  /** No occurrence reaches from the front matter into the written delimiter. */
  lemma DelimiterDoesNotStraddle(front: string, tail: string, i: nat)
    requires i < |front| < i + 4
    ensures !OccursAt(front + DELIMITER + tail, DELIMITER, i)
  {
    var rest := front + DELIMITER + tail;
    var k := |front| - i;
    assert rest[i + k] == '\n' && (k == 1 || k == 2 || k == 3);
    assert rest[i..i + 5][k] != DELIMITER[k];
  }

  /** Nothing before the written delimiter can be mistaken for it. */
  lemma DelimiterIsWhereItWasWritten(front: string, tail: string)
    requires Find(front, FENCE).None?
    ensures Find(front + DELIMITER + tail, DELIMITER) == Some(|front|)
  {
    var rest := front + DELIMITER + tail;
    assert rest[|front|..|front| + 5] == DELIMITER;
    assert OccursAt(rest, DELIMITER, |front|);
    forall i: nat | i < |front| ensures !OccursAt(rest, DELIMITER, i) {
      if i + 4 > |front| {
        DelimiterDoesNotStraddle(front, tail, i);
      } else if OccursAt(rest, DELIMITER, i) {
        DelimiterShowsFence(front, tail, i);
      }
    }
  }

  /**
    For every front matter that passes the fence check and every body, fences of its own included, splitting the
    note gives back exactly the front matter and the body with its final newline.
   */
  lemma SplitUndoesRender(front: string, body: string)
    requires Find(front, FENCE).None?
    ensures Split(NoteText(front, body)) == Some((front, "\n" + WithFinalNewline(body)))
  {
    var tail := "\n" + WithFinalNewline(body);
    var rest := front + DELIMITER + tail;
    NoteTextParts(front, body);
    DelimiterIsWhereItWasWritten(front, tail);
    assert rest[..|front|] == front && rest[|front| + |DELIMITER|..] == tail;
  }

  lemma NoteTextParts(front: string, body: string)
    ensures StartsWith(NoteText(front, body), "---\n")
    ensures NoteText(front, body)[4..] == front + DELIMITER + ("\n" + WithFinalNewline(body))
  {
    assert NoteText(front, body) == "---\n" + (front + DELIMITER + ("\n" + WithFinalNewline(body)));
  }

  /** Without the check it would not: front matter ending in a fence is cut short. */
  lemma FenceCheckIsNeeded(body: string)
    ensures Split(NoteText("title: a\n---", body)) != Some(("title: a\n---", "\n" + WithFinalNewline(body)))
  {
    var front := "title: a\n---";
    var tail := "\n" + WithFinalNewline(body);
    var rest := front + DELIMITER + tail;
    NoteTextParts(front, body);
    assert rest[8..13] == DELIMITER;
    assert OccursAt(rest, DELIMITER, 8);
  }
}
