/** File names of notes (`slug`, `note_file_name`, `is_safe_file_name` in src/inbox.rs). */
module NoteNames {
  import opened Common
  import opened Text
  import Calendar
  import opened Timestamps

  const MAX_SLUG_CHARS: nat := 40
  const FALLBACK_SLUG: string := "note"

  function ToAsciiLowercase(c: char): (r: char) {
    if 'A' <= c <= 'Z' then (c as int + 32) as char else c
  }

  predicate IsSlugChar(c: char) {
    'a' <= c <= 'z' || '0' <= c <= '9'
  }

  /** The character counts once lowered. */
  predicate Counts(c: char) {
    IsSlugChar(ToAsciiLowercase(c))
  }

  // ---- What a slug is ----

  /** Nonempty runs of `[a-z0-9]` joined by single hyphens. */
  predicate IsJoinedRuns(s: string) {
    && (forall i | 0 <= i < |s| :: IsSlugChar(s[i]) || s[i] == '-')
    && (forall i | 0 <= i < |s| :: s[i] == '-' ==> 0 < i < |s| - 1 && s[i - 1] != '-')
  }

  predicate IsSlug(s: string) {
    0 < |s| <= 40 && IsJoinedRuns(s)
  }

  /** The runs of `[a-z0-9]` in the lowered title, joined by single hyphens, without any limit. */
  function Joined(title: string): (r: string) {
    if title == [] then ""
    else
      var before := title[..|title| - 1];
      var c := title[|title| - 1];
      if !Counts(c) then Joined(before)
      else if EndsInGap(before) && Joined(before) != "" then Joined(before) + "-" + [ToAsciiLowercase(c)]
      else Joined(before) + [ToAsciiLowercase(c)]
  }

  predicate EndsInGap(s: string) {
    s != [] && !Counts(s[|s| - 1])
  }

  function Take(s: string, n: nat): (r: string) {
    if |s| <= n then s else s[..n]
  }

  function TrimHyphens(s: string): (r: string) {
    if s != [] && s[|s| - 1] == '-' then TrimHyphens(s[..|s| - 1]) else s
  }

  /** What `slug` computes: the joined runs, cut to the limit, never ending in a hyphen, never empty. */
  function Slug(title: string): (r: string) {
    var cut := TrimHyphens(Take(Joined(title), MAX_SLUG_CHARS));
    if cut == "" then FALLBACK_SLUG else cut
  }

  lemma {:induction false} JoinedGrows(title: string, i: nat)
    requires i <= |title|
    ensures Joined(title[..i]) <= Joined(title)
    decreases |title|
  {
    if i < |title| {
      var before := title[..|title| - 1];
      assert title[..i] == before[..i];
      JoinedGrows(before, i);
    } else {
      assert title[..i] == title;
    }
  }

  method SlugOf(title: string) returns (slug: string)
    ensures slug == Slug(title)
  {
    slug := "";
    var separator := false;
    var i := 0;
    while i < |title|
      invariant 0 <= i <= |title|
      invariant slug == Joined(title[..i]) && |slug| <= MAX_SLUG_CHARS
      invariant separator == EndsInGap(title[..i])
    {
      assert title[..i + 1][..i] == title[..i];
      JoinedGrows(title, i);
      JoinedGrows(title, i + 1);
      var character := ToAsciiLowercase(title[i]);
      if IsSlugChar(character) {
        if |slug| >= MAX_SLUG_CHARS { break; }
        if separator && slug != "" { slug := slug + "-"; }
        separator := false;
        if |slug| >= MAX_SLUG_CHARS { break; }
        slug := slug + [character];
      } else {
        separator := true;
      }
      i := i + 1;
    }
    assert title[..|title|] == title;
    assert slug == Take(Joined(title), MAX_SLUG_CHARS);
    ghost var cut := slug;
    while slug != "" && slug[|slug| - 1] == '-'
      invariant TrimHyphens(slug) == TrimHyphens(cut)
      decreases |slug|
    {
      slug := slug[..|slug| - 1];
    }
    if slug == "" { slug := FALLBACK_SLUG; }
  }

  // ---- The image of slug ----

  /** The counted characters of a text, lowered, in order. */
  function Letters(text: string): (r: string) {
    if text == [] then ""
    else
      var before := Letters(text[..|text| - 1]);
      if Counts(text[|text| - 1]) then before + [ToAsciiLowercase(text[|text| - 1])] else before
  }

  lemma {:induction false} LettersSnoc(s: string, x: string)
    ensures Letters(s + x) == Letters(s) + Letters(x)
    decreases |x|
  {
    if x == [] {
      assert s + x == s;
    } else {
      var y := x[..|x| - 1];
      assert (s + x)[..|s + x| - 1] == s + y;
      LettersSnoc(s, y);
    }
  }

  /** Joining drops nothing that counts and reorders nothing: only gaps are replaced. */
  lemma {:induction false} JoinedKeepsLetters(title: string)
    ensures Letters(Joined(title)) == Letters(title)
  {
    if title != [] {
      var before, c := title[..|title| - 1], title[|title| - 1];
      JoinedKeepsLetters(before);
      if Counts(c) {
        var lowered := [ToAsciiLowercase(c)];
        assert lowered[..0] == "" && Letters(lowered) == lowered;
        assert "-"[..0] == "" && Letters("-") == "";
        LettersSnoc(Joined(before), "-");
        LettersSnoc(Joined(before) + "-", lowered);
        LettersSnoc(Joined(before), lowered);
      }
    }
  }

  lemma {:induction false} JoinedIsJoinedRuns(title: string)
    ensures IsJoinedRuns(Joined(title))
  {
    if title != [] { JoinedIsJoinedRuns(title[..|title| - 1]); }
  }

  /** Cutting joined runs leaves at most one hyphen to trim. */
  lemma CutRuns(s: string, n: nat)
    requires IsJoinedRuns(s)
    ensures var cut := TrimHyphens(Take(s, n)); IsJoinedRuns(cut) && |cut| <= n
  {
    var t := Take(s, n);
    if t != [] && t[|t| - 1] == '-' {
      var u := t[..|t| - 1];
      assert s[|t| - 1] == '-';
      assert u != [] && u[|u| - 1] != '-';
      assert TrimHyphens(t) == u;
    }
  }

  /** Joined runs are unchanged by joining, up to a hyphen at the very end. */
  lemma {:induction false} JoinedOfPrefix(s: string, n: nat)
    requires IsJoinedRuns(s) && n <= |s|
    ensures Joined(s[..n]) == if n > 0 && s[n - 1] == '-' then s[..n - 1] else s[..n]
  {
    if n > 0 {
      JoinedOfPrefix(s, n - 1);
      var p := s[..n];
      assert p[..|p| - 1] == s[..n - 1] && p[|p| - 1] == s[n - 1];
      assert IsSlugChar(s[n - 1]) ==> ToAsciiLowercase(s[n - 1]) == s[n - 1];
      if n > 1 {
        assert s[..n - 1][n - 2] == s[n - 2];
        if s[n - 2] == '-' { assert s[..n] == s[..n - 2] + "-" + [s[n - 1]]; }
      }
    }
  }

  lemma SlugOfSlug(s: string)
    requires IsSlug(s)
    ensures Slug(s) == s
  {
    JoinedOfPrefix(s, |s|);
    assert s[..|s|] == s;
  }

  lemma SlugIsSlug(title: string)
    ensures IsSlug(Slug(title))
  {
    JoinedIsJoinedRuns(title);
    CutRuns(Joined(title), MAX_SLUG_CHARS);
  }

  /** The image of `slug` is exactly the slugs, and it leaves each of them alone. */
  lemma SlugImage(s: string)
    ensures IsSlug(s) <==> exists title :: Slug(title) == s
    ensures Slug(Slug(s)) == Slug(s)
  {
    SlugIsSlug(s);
    SlugOfSlug(Slug(s));
    if IsSlug(s) { SlugOfSlug(s); }
    if exists title :: Slug(title) == s {
      var title :| Slug(title) == s;
      SlugIsSlug(title);
    }
  }

  /** Short titles keep all their letters; a title without any is called `note`. */
  lemma ShortTitlesAreKept(title: string)
    ensures |Joined(title)| <= 40 ==> Slug(title) == if Letters(title) == "" then "note" else Joined(title)
  {
    if |Joined(title)| <= 40 {
      JoinedKeepsLetters(title);
      JoinedIsJoinedRuns(title);
      RunsHaveLetters(Joined(title));
    }
  }

  lemma RunsHaveLetters(s: string)
    requires IsJoinedRuns(s)
    ensures Letters(s) == "" <==> s == ""
    ensures TrimHyphens(s) == s
  {
    if s != "" {
      var before, last := s[..|s| - 1], s[|s| - 1];
      assert IsSlugChar(last);
    }
  }

  // ---- File names ----

  const MAX_NAME_ATTEMPTS: nat := 64

  function Suffix(attempt: nat): (r: string) {
    if attempt == 0 then "" else "-" + Decimal(attempt + 1)
  }

  function NoteFileName(seconds: int, slug: string, attempt: nat): (r: string) {
    FileTime(seconds) + ("-" + slug + Suffix(attempt) + ".md")
  }

  predicate IsNameChar(c: char) {
    IsSlugChar(c) || c == '-' || c == '.'
  }

  predicate AllNameChars(s: string) {
    forall i | 0 <= i < |s| :: IsNameChar(s[i])
  }

  predicate EndsWith(s: string, end: string) {
    |end| <= |s| && s[|s| - |end|..] == end
  }

  /** `is_safe_file_name`: one path component, made of harmless characters. */
  predicate IsSafeFileName(name: string) {
    && name != "" && ByteLen(name) <= 255 && name[0] != '.'
    && AllNameChars(name)
    && EndsWith(name, ".md")
  }

  lemma {:induction false} DecimalLength(n: nat, width: nat)
    requires n < Pow10(width) && width > 0
    ensures |Decimal(n)| <= width
  {
    if n >= 10 { DecimalLength(n / 10, width - 1); }
  }

  lemma {:induction false} DecimalValue(n: nat)
    ensures ValueOf(Decimal(n)) == n
  {
    var s := Decimal(n);
    if n >= 10 {
      DecimalValue(n / 10);
      assert s[..|s| - 1] == Decimal(n / 10);
    } else {
      assert s[..|s| - 1] == "";
    }
  }

  lemma PaddedLength(n: int, width: nat, digits: nat)
    requires -(Pow10(digits) as int) < n < Pow10(digits) && digits > 0
    ensures |Padded(n, width)| <= 1 + if width <= digits then digits else width
    ensures AllNameChars(Padded(n, width)) && Padded(n, width) != ""
    ensures Padded(n, width)[0] != '.'
  {
    DecimalLength(if n < 0 then -n else n, digits);
  }

  /** Seconds of an `i64` lie in years of at most twelve digits. */
  lemma YearBound(seconds: int)
    requires IsI64(seconds)
    ensures -1_000_000_000_000 < UtcParts(seconds).date.year < 1_000_000_000_000
  {
    var d := Calendar.CivilFromDays(seconds / 86_400);
    assert Calendar.IsValid(d) && Calendar.DaysFromCivil(d) == seconds / 86_400 by { Calendar.CivilFromDaysIsExact(seconds / 86_400); }
    Calendar.WithinYear(d);
    YearsAreLong(d.year);
    YearsAreLong(d.year + 1);
  }

  lemma YearsAreLong(y: int)
    ensures y >= 1 ==> Calendar.DaysBeforeYear(y) >= 365 * (y - 1)
    ensures y <= 1 ==> Calendar.DaysBeforeYear(y) <= 365 * (y - 1)
  {
    var z := y - 1;
    assert z >= 0 ==> z / 4 - z / 100 + z / 400 >= 0;
    assert z <= 0 ==> z / 4 - z / 100 + z / 400 <= 0;
  }

  lemma TwelveDigits()
    ensures Pow10(12) == 1_000_000_000_000 && Pow10(2) == 100
  {
    assert Pow10(3) == 1_000;
    assert Pow10(6) == 1_000 * Pow10(3);
    assert Pow10(9) == 1_000 * Pow10(6);
    assert Pow10(12) == 1_000 * Pow10(9);
  }

  lemma FileTimeIsHarmless(seconds: int)
    requires IsI64(seconds)
    ensures AllNameChars(FileTime(seconds)) && FileTime(seconds) != "" && FileTime(seconds)[0] != '.'
    ensures |FileTime(seconds)| <= 34
  {
    PartsInRange(seconds);
    YearBound(seconds);
    TwelveDigits();
    var t := UtcParts(seconds);
    PaddedLength(t.date.year, 4, 12);
    PaddedLength(t.date.month, 2, 2);
    PaddedLength(t.date.day, 2, 2);
    PaddedLength(t.hour, 2, 2);
    PaddedLength(t.minute, 2, 2);
    PaddedLength(t.second, 2, 2);
    JoinedIsHarmless(FileTime(seconds), Padded(t.date.year, 4), Padded(t.date.month, 2), Padded(t.date.day, 2),
                     Padded(t.hour, 2), Padded(t.minute, 2), Padded(t.second, 2));
  }

  lemma JoinedIsHarmless(text: string, y: string, mo: string, d: string, h: string, mi: string, s: string)
    requires text == y + ("-" + (mo + ("-" + (d + ("-" + (h + (mi + s)))))))
    requires AllNameChars(y) && AllNameChars(mo) && AllNameChars(d) && AllNameChars(h) && AllNameChars(mi) && AllNameChars(s)
    requires y != "" && y[0] != '.' && |y| <= 13 && |mo| <= 3 && |d| <= 3 && |h| <= 3 && |mi| <= 3 && |s| <= 3
    ensures AllNameChars(text) && text != "" && text[0] != '.' && |text| <= 34
  {
    var tail := h + (mi + s);
    assert AllNameChars(tail);
    assert AllNameChars(d + ("-" + tail));
    assert AllNameChars(mo + ("-" + (d + ("-" + tail))));
  }

  lemma NameCharsAreAscii(s: string)
    requires AllNameChars(s)
    ensures ByteLen(s) == |s|
  {
    AsciiLength(s);
  }

  lemma AssembledNameIsSafe(head: string, slug: string, suffix: string)
    requires AllNameChars(head) && head != "" && head[0] != '.' && |head| <= 34
    requires AllNameChars(slug) && |slug| <= MAX_SLUG_CHARS && AllNameChars(suffix) && |suffix| <= 3
    ensures IsSafeFileName(head + ("-" + slug + suffix + ".md"))
  {
    var end := "-" + slug + suffix + ".md";
    assert AllNameChars("-" + slug) && AllNameChars("-" + slug + suffix) && AllNameChars(end);
    assert end[|end| - 3..] == ".md";
    var name := head + end;
    NameCharsAreAscii(name);
    assert name[|name| - 3..] == end[|end| - 3..];
  }

  /** Every generated name is a single safe component: `InvalidFileName` is never returned. */
  lemma GeneratedNamesAreSafe(seconds: int, title: string, attempt: nat)
    requires IsI64(seconds) && attempt < MAX_NAME_ATTEMPTS
    ensures IsSafeFileName(NoteFileName(seconds, Slug(title), attempt))
  {
    SlugIsSlug(title);
    FileTimeIsHarmless(seconds);
    SuffixIsHarmless(attempt);
    AssembledNameIsSafe(FileTime(seconds), Slug(title), Suffix(attempt));
  }

  lemma SuffixIsHarmless(attempt: nat)
    requires attempt < MAX_NAME_ATTEMPTS
    ensures |Suffix(attempt)| <= 3 && AllNameChars(Suffix(attempt))
  {
    TwelveDigits();
    DecimalLength(attempt + 1, 2);
  }

  lemma CommonEnds(head: string, slug: string, x: string, y: string)
    requires head + ("-" + slug + x + ".md") == head + ("-" + slug + y + ".md")
    ensures x == y
  {
    var p, q := "-" + slug + x + ".md", "-" + slug + y + ".md";
    assert p == (head + p)[|head|..] && q == (head + q)[|head|..];
    assert x == p[1 + |slug|..|p| - 3] && y == q[1 + |slug|..|q| - 3];
  }

  lemma SuffixesAreDistinct(a: nat, b: nat)
    requires Suffix(a) == Suffix(b)
    ensures a == b
  {
    if a > 0 && b > 0 {
      assert Decimal(a + 1) == Suffix(a)[1..] && Decimal(b + 1) == Suffix(b)[1..];
      DecimalValue(a + 1);
      DecimalValue(b + 1);
    }
  }

  /** The names tried for one note are pairwise distinct. */
  lemma AttemptsAreDistinct(seconds: int, slug: string, a: nat, b: nat)
    requires NoteFileName(seconds, slug, a) == NoteFileName(seconds, slug, b)
    ensures a == b
  {
    CommonEnds(FileTime(seconds), slug, Suffix(a), Suffix(b));
    SuffixesAreDistinct(a, b);
  }

  /** Across different slugs names do collide: the second name for `a` is the first for `a-2`. */
  lemma SlugsMayShareNames(seconds: int)
    ensures IsSlug("a") && IsSlug("a-2")
    ensures NoteFileName(seconds, "a", 1) == NoteFileName(seconds, "a-2", 0)
  {
    assert Suffix(1) == "-2";
    assert "-" + "a" + Suffix(1) + ".md" == "-" + "a-2" + Suffix(0) + ".md";
  }

  lemma Slices(text: string, y: string, mo: string, d: string, h: string, mi: string, s: string)
    requires |y| == 4 && |mo| == 2 && |d| == 2 && |h| == 2 && |mi| == 2 && |s| == 2
    requires text == y + ("-" + (mo + ("-" + (d + ("T" + (h + (":" + (mi + (":" + (s + "Z"))))))))))
    ensures |text| == 20
    ensures y + ("-" + (mo + ("-" + (d + ("-" + (h + (mi + s))))))) == text[..10] + "-" + text[11..13] + text[14..16] + text[17..19]
  {
    Layout(y, mo, d, h, mi, s);
    assert text[..10] == y + ("-" + (mo + ("-" + d)));
  }

  /** The name shows the time that the note's `created` field states, without its colons, then the slug and the attempt. */
  lemma NamesShowTheTime(seconds: int, slug: string, attempt: nat)
    requires HasFourDigitYear(seconds)
    ensures |Rfc3339(seconds)| == 20
    ensures var t := Rfc3339(seconds);
            NoteFileName(seconds, slug, attempt) ==
            t[..10] + "-" + t[11..13] + t[14..16] + t[17..19] + ("-" + slug + (if attempt == 0 then "" else "-" + Decimal(attempt + 1)) + ".md")
  {
    FourDigitYears(seconds);
    PartsInRange(seconds);
    PrintedFields(UtcParts(seconds));
    var t := UtcParts(seconds);
    Slices(Rfc3339(seconds), Padded(t.date.year, 4), Padded(t.date.month, 2), Padded(t.date.day, 2),
           Padded(t.hour, 2), Padded(t.minute, 2), Padded(t.second, 2));
  }
}
