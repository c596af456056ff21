/**
 * Extension: the file types the file system knows, each with the aliases (file-name endings) it
 * answers to. A name is looked up with at most one leading `.` removed, and aliases are compared
 * ignoring case (ASCII letters only here).
 */
module Extensions {
  import opened Wrappers
  import opened Text
  import opened Sequences

  datatype Extension = CSS | HTML | PNG | ICO | GIF | JPEG | ZIP | TXT | PDF | JAVASCRIPT

  /** `values()`: the constants in declaration order. */
  const Values: seq<Extension> := [CSS, HTML, PNG, ICO, GIF, JPEG, ZIP, TXT, PDF, JAVASCRIPT]

  /** The position of each constant in declaration order. */
  function Ordinal(e: Extension): (k: nat)
    ensures k < |Values| && Values[k] == e
  {
    match e
    case CSS => 0
    case HTML => 1
    case PNG => 2
    case ICO => 3
    case GIF => 4
    case JPEG => 5
    case ZIP => 6
    case TXT => 7
    case PDF => 8
    case JAVASCRIPT => 9
  }

  /** `Ordinal` undoes indexing into `Values`. */
  lemma OrdinalOfValue(k: nat)
    requires k < |Values|
    ensures Ordinal(Values[k]) == k
  {
  }

  /** `getExtensions()`: the alias table. */
  function Aliases(e: Extension): seq<string> {
    match e
    case CSS => ["css"]
    case HTML => ["html", "xhtml", "htm", "vm"]
    case PNG => ["png"]
    case ICO => ["ico"]
    case GIF => ["gif"]
    case JPEG => ["jpg", "jpeg"]
    case ZIP => ["zip"]
    case TXT => ["txt"]
    case PDF => ["pdf"]
    case JAVASCRIPT => ["js"]
  }

  /** The name with one leading `.` removed, when it has one. */
  function StripDot(s: string): (w: string)
    ensures StartsWith(s, ".") ==> s == "." + w
    ensures !StartsWith(s, ".") ==> w == s
  {
    if StartsWith(s, ".") then s[1..] else s
  }

  /** Some alias of `aliases` equals `w` ignoring case. */
  function AnyAlias(aliases: seq<string>, w: string): (r: bool)
    ensures r <==> exists i :: 0 <= i < |aliases| && EqualsIgnoreCase(aliases[i], w)
  {
    if aliases == [] then false
    else EqualsIgnoreCase(aliases[0], w) || AnyAlias(aliases[1..], w)
  }

  /** What `e.matches(s)` answers: some alias of `e` equals `s`, minus one leading dot, ignoring case. */
  predicate Matches(e: Extension, s: string) {
    AnyAlias(Aliases(e), StripDot(s))
  }

  /** What `matches` means, alias by alias. */
  lemma MatchesAlias(e: Extension, s: string)
    ensures Matches(e, s) <==> exists i :: 0 <= i < |Aliases(e)| && EqualsIgnoreCase(Aliases(e)[i], StripDot(s))
  {
  }

  /**
   * What `getExtension(s)` answers: the first constant, in declaration order, that matches `s`;
   * None (`Optional.empty()`) when there is none.
   */
  function ExtensionOf(s: string): (r: Option<Extension>)
    ensures r.Some? ==> Matches(r.value, s)
    ensures r.Some? ==> forall j :: 0 <= j < Ordinal(r.value) ==> !Matches(Values[j], s)
    ensures r.None? <==> forall j :: 0 <= j < |Values| ==> !Matches(Values[j], s)
  {
    match FirstIndex(Values, e => Matches(e, s))
    case Some(k) =>
      OrdinalOfValue(k);
      Some(Values[k])
    case None => None
  }

  /** The inner loop of both lookups: does some alias equal `w`, ignoring case? */
  method EqualsAnyAlias(aliases: seq<string>, w: string) returns (b: bool)
    ensures b == AnyAlias(aliases, w)
  {
    var i := 0;
    while i < |aliases|
      invariant 0 <= i <= |aliases|
      invariant AnyAlias(aliases, w) == AnyAlias(aliases[i..], w)
    {
      if EqualsIgnoreCase(aliases[i], w) {
        return true;
      }
      assert aliases[i..][1..] == aliases[i + 1..];
      i := i + 1;
    }
    return false;
  }

  /** `e.matches(s)` */
  method IsMatch(e: Extension, s: string) returns (b: bool)
    ensures b == Matches(e, s)
  {
    var w := s;
    if StartsWith(s, ".") {
      w := s[1..];
    }
    b := EqualsAnyAlias(Aliases(e), w);
  }

  /** `getExtension(s)`: scans the constants in declaration order and stops at the first match. */
  method GetExtension(s: string) returns (r: Option<Extension>)
    ensures r == ExtensionOf(s)
  {
    var w := s;
    if StartsWith(s, ".") {
      w := s[1..];
    }
    var i := 0;
    while i < |Values|
      invariant 0 <= i <= |Values|
      invariant forall j :: 0 <= j < i ==> !Matches(Values[j], s)
    {
      var found := EqualsAnyAlias(Aliases(Values[i]), w);
      if found {
        ExtensionOfFirst(s, i);
        return Some(Values[i]);
      }
      i := i + 1;
    }
    return None;
  }

  /** The constant at `i` is what `getExtension` finds when it matches and none before it does. */
  lemma ExtensionOfFirst(s: string, i: nat)
    requires i < |Values| && Matches(Values[i], s)
    requires forall j :: 0 <= j < i ==> !Matches(Values[j], s)
    ensures ExtensionOf(s) == Some(Values[i])
  {
    var r := ExtensionOf(s);
    assert Values[Ordinal(r.value)] == r.value;
  }

  /** `getExtension` finds nothing exactly when no constant matches. */
  lemma ExtensionOfNone(s: string)
    ensures ExtensionOf(s).None? <==> forall e: Extension :: !Matches(e, s)
  {
    if ExtensionOf(s).None? {
      forall e: Extension ensures !Matches(e, s) {
        assert Values[Ordinal(e)] == e;
      }
    }
  }

  /** A string without upper-case letters is its own lower case. */
  lemma ToLowerOfLower(s: string)
    requires forall i :: 0 <= i < |s| ==> !IsUpper(s[i])
    ensures ToLower(s) == s
  {
  }

  /** Every alias is written in lower case. */
  lemma AliasesLowerCase(e: Extension, i: nat)
    requires i < |Aliases(e)|
    ensures ToLower(Aliases(e)[i]) == Aliases(e)[i]
  {
    var a := Aliases(e)[i];
    assert forall k :: 0 <= k < |a| ==> !IsUpper(a[k]);
    ToLowerOfLower(a);
  }

  /** No two constants share an alias, ignoring case. */
  lemma AliasesDisjoint(e1: Extension, e2: Extension, i: nat, j: nat)
    requires i < |Aliases(e1)| && j < |Aliases(e2)|
    requires EqualsIgnoreCase(Aliases(e1)[i], Aliases(e2)[j])
    ensures e1 == e2
  {
    AliasesLowerCase(e1, i);
    AliasesLowerCase(e2, j);
  }

  /** A name matches at most one constant, so `getExtension` finds exactly the one it matches. */
  lemma ExtensionOfUnique(e: Extension, s: string)
    ensures ExtensionOf(s) == Some(e) <==> Matches(e, s)
  {
    if Matches(e, s) {
      ExtensionOfNone(s);
      var r := ExtensionOf(s).value;
      MatchesAlias(e, s);
      MatchesAlias(r, s);
      var i :| 0 <= i < |Aliases(e)| && EqualsIgnoreCase(Aliases(e)[i], StripDot(s));
      var j :| 0 <= j < |Aliases(r)| && EqualsIgnoreCase(Aliases(r)[j], StripDot(s));
      EqualsIgnoreCaseIsEquivalence(Aliases(e)[i], StripDot(s), Aliases(r)[j]);
      AliasesDisjoint(e, r, i, j);
    }
  }

  /** No alias is empty or starts with a dot. */
  lemma AliasNoDot(e: Extension, i: nat)
    requires i < |Aliases(e)|
    ensures Aliases(e)[i] != [] && Aliases(e)[i][0] != '.'
  {
  }

  /** A name equal to an alias ignoring case does not start with a dot. */
  lemma AliasSpellingNoDot(e: Extension, i: nat, s: string)
    requires i < |Aliases(e)|
    requires EqualsIgnoreCase(s, Aliases(e)[i])
    ensures !StartsWith(s, ".")
  {
    AliasNoDot(e, i);
    if s != [] {
      assert ToLower(s)[0] == ToLowerChar(s[0]) && ToLower(s) == ToLower(Aliases(e)[i]);
    }
  }

  /** Such a name matches its constant, with or without a leading dot. */
  lemma AliasSpellingMatches(e: Extension, i: nat, s: string)
    requires i < |Aliases(e)|
    requires EqualsIgnoreCase(s, Aliases(e)[i])
    ensures Matches(e, s) && Matches(e, "." + s)
  {
    AliasSpellingNoDot(e, i, s);
    assert StripDot(s) == s;
    assert StripDot("." + s) == s by {
      assert StartsWith("." + s, ".");
    }
    EqualsIgnoreCaseIsEquivalence(Aliases(e)[i], s, s);
    MatchesAlias(e, s);
    MatchesAlias(e, "." + s);
  }

  /** Every alias, with or without a leading dot and in any case, finds its own constant. */
  lemma ExtensionOfAlias(e: Extension, i: nat, s: string)
    requires i < |Aliases(e)|
    requires EqualsIgnoreCase(s, Aliases(e)[i])
    ensures ExtensionOf(s) == Some(e)
    ensures ExtensionOf("." + s) == Some(e)
  {
    AliasSpellingMatches(e, i, s);
    ExtensionOfUnique(e, s);
    ExtensionOfUnique(e, "." + s);
  }
}
