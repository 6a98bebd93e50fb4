/** Scope sets granted to clients and tokens (`ScopeGrant` in src/oauth.rs). */
module ScopeGrants {
  import opened Common
  import opened Text

  const SCOPE_TECH: string := "kb:tech"
  const SCOPE_PRIVATE: string := "kb:private"
  const MAX_SCOPE_BYTES: nat := 256

  datatype ScopeGrant = ScopeGrant(names: set<string>) {

    predicate IsValid() {
      names != {} && forall s | s in names :: s == SCOPE_TECH || s == SCOPE_PRIVATE
    }

    function AccessScope(): (r: AccessScope) {
      if SCOPE_PRIVATE in names then Private else Tech
    }

    /** `self` covers `requested`; holding `kb:private` also covers `kb:tech`. */
    predicate Allows(requested: ScopeGrant) {
      forall s | s in requested.names ::
        s in names || (s == SCOPE_TECH && SCOPE_PRIVATE in names)
    }

    predicate IsSubsetOf(requested: ScopeGrant) {
      names <= requested.names
    }

    function AsString(): (r: string) {
      if SCOPE_TECH in names && SCOPE_PRIVATE in names then SCOPE_TECH + " " + SCOPE_PRIVATE
      else if SCOPE_TECH in names then SCOPE_TECH
      else if SCOPE_PRIVATE in names then SCOPE_PRIVATE
      else ""
    }

    /** What the grant is worth: every name it covers. */
    ghost function Covered(): (r: set<string>) {
      names + if SCOPE_PRIVATE in names then {SCOPE_TECH} else {}
    }
  }

  function WordSet(text: string): (r: set<string>) {
    set w | w in Words(text)
  }

  /** `ScopeGrant::parse`; `None` is `InvalidScope`. */
  function Parse(text: string): (r: Option<ScopeGrant>)
    ensures r.Some? ==> r.value.IsValid()
  {
    if ByteLen(text) > MAX_SCOPE_BYTES then None
    else
      var g := ScopeGrant(WordSet(text));
      if g.IsValid() then Some(g) else None
  }

  /** `ScopeGrant::parse_lenient`: unknown names are dropped, nothing left means both scopes. */
  function ParseLenient(text: string): (g: ScopeGrant)
    ensures g.IsValid()
  {
    var known := set w | w in Words(text) && (w == SCOPE_TECH || w == SCOPE_PRIVATE);
    if known == {} then ScopeGrant({SCOPE_TECH, SCOPE_PRIVATE}) else ScopeGrant(known)
  }

  /** A scope parameter is accepted exactly when it is short and names known scopes, at least one; it grants what it names. */
  lemma ParsesExactlyKnownWords(text: string, g: ScopeGrant)
    ensures Parse(text) == Some(g) <==>
            && ByteLen(text) <= 256 && Words(text) != []
            && (forall w | w in Words(text) :: w == "kb:tech" || w == "kb:private")
            && (forall s :: s in g.names <==> s in Words(text))
  {
    if Words(text) != [] { assert Words(text)[0] in WordSet(text); }
    if (forall s :: s in g.names <==> s in Words(text)) { assert g.names == WordSet(text); }
  }

  /** At registration unknown names are dropped; nothing left means both scopes. */
  lemma RegistrationKeepsKnownWords(text: string, s: string)
    ensures s in ParseLenient(text).names <==>
            && (s == "kb:tech" || s == "kb:private")
            && (s in Words(text) || forall w | w in Words(text) :: w != "kb:tech" && w != "kb:private")
  {
    var known := set w | w in Words(text) && (w == SCOPE_TECH || w == SCOPE_PRIVATE);
    if known == {} {
      forall w | w in Words(text) ensures w != SCOPE_TECH && w != SCOPE_PRIVATE {
        assert w !in known;
      }
    } else {
      var w :| w in known;
      assert w in Words(text);
    }
  }

  /** `allows` is inclusion of what the two grants are worth, hence a preorder. */
  lemma AllowsIsCoverage(a: ScopeGrant, b: ScopeGrant)
    ensures a.Allows(b) <==> b.Covered() <= a.Covered()
  {
    if a.Allows(b) {
      forall s | s in b.Covered() ensures s in a.Covered() {
        if s !in b.names { assert SCOPE_PRIVATE in b.names; }
      }
    } else {
      var s :| s in b.names && s !in a.names && !(s == SCOPE_TECH && SCOPE_PRIVATE in a.names);
      assert s in b.Covered() && s !in a.Covered();
    }
  }

  lemma AllowsIsTransitive(a: ScopeGrant, b: ScopeGrant, c: ScopeGrant)
    requires a.Allows(b) && b.Allows(c)
    ensures a.Allows(c)
  {
    AllowsIsCoverage(a, b);
    AllowsIsCoverage(b, c);
    AllowsIsCoverage(a, c);
  }

  /** Granting exactly the private capability is what decides the access scope of anything allowed. */
  lemma PrivateNeedsPrivate(a: ScopeGrant, b: ScopeGrant)
    requires a.Allows(b) && b.AccessScope() == Private
    ensures a.AccessScope() == Private
  {
    assert SCOPE_PRIVATE in b.names;
  }

  lemma ScopeNamesAreWords()
    ensures IsWord(SCOPE_TECH) && IsWord(SCOPE_PRIVATE)
  {
  }

  lemma ScopeWords()
    ensures Words(SCOPE_TECH) == [SCOPE_TECH]
    ensures Words(SCOPE_PRIVATE) == [SCOPE_PRIVATE]
    ensures Words(SCOPE_TECH + " " + SCOPE_PRIVATE) == [SCOPE_TECH, SCOPE_PRIVATE]
  {
    ScopeNamesAreWords();
    LoneWord(SCOPE_TECH);
    LoneWord(SCOPE_PRIVATE);
    WordThenSpace(SCOPE_TECH, SCOPE_PRIVATE);
  }

  lemma ScopeTextFits(g: ScopeGrant)
    ensures ByteLen(g.AsString()) <= MAX_SCOPE_BYTES
  {
    AsciiLength(g.AsString());
  }

  /** The scope text a token response prints parses back to the grant. */
  lemma ScopeTextRoundTrip(g: ScopeGrant)
    requires g.IsValid()
    ensures Parse(g.AsString()) == Some(g)
  {
    ScopeTextFits(g);
    assert WordSet(g.AsString()) == g.names by {
      ScopeWords();
      var w := Words(g.AsString());
      assert forall x :: x in w <==> x in g.names;
    }
  }
}
