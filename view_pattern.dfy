/**
 * ViewPattern: a route template split on `/` into segments, each a literal, a required capture
 * `<name>` or an optional capture `[name]` / `[name=default]`, matched against a path split the
 * same way. A match yields the map from capture names to the segments they took (or their
 * defaults); no match yields None (Java's null).
 */
module ViewPattern {
  import opened Wrappers
  import opened Text

  datatype Segment =
    | Literal(text: string)
    | Required(name: string)
    | Optional(name: string, default: Option<string>)

  type Bindings = map<string, string>

  function ParseSegment(s: string): Segment {
    if |s| >= 2 && s[0] == '<' && s[|s| - 1] == '>' then Required(s[1..|s| - 1])
    else if |s| >= 2 && s[0] == '[' && s[|s| - 1] == ']' then
      var inner := s[1..|s| - 1];
      if '=' in inner then
        var k := IndexOf(inner, '=');
        Optional(inner[..k], Some(inner[k + 1..]))
      else Optional(inner, None)
    else Literal(s)
  }

  /** Reads every piece of a split template as a segment, in order. */
  function CompileParts(parts: seq<string>): (segments: seq<Segment>)
    ensures |segments| == |parts|
    ensures forall i :: 0 <= i < |parts| ==> segments[i] == ParseSegment(parts[i])
  {
    if parts == [] then [] else [ParseSegment(parts[0])] + CompileParts(parts[1..])
  }

  /** `new ViewPattern(pattern)`: the template split on `/`, each piece read as a segment. */
  function Compile(pattern: string): (segments: seq<Segment>)
    ensures |segments| == |Split(pattern, '/')|
  {
    CompileParts(Split(pattern, '/'))
  }

  /**
   * The segment-by-segment matcher. Every segment before a literal takes exactly one path
   * segment, so a match finds each literal at its own position of the path.
   */
  function MatchSegments(pattern: seq<Segment>, path: seq<string>): (r: Option<Bindings>)
    ensures r.Some? ==> forall i :: 0 <= i < |pattern| && pattern[i].Literal? ==>
      i < |path| && path[i] == pattern[i].text
    decreases |pattern|
  {
    if pattern == [] then
      if path == [] then Some(map[]) else None
    else match pattern[0]
      case Literal(t) =>
        if path != [] && path[0] == t then MatchSegments(pattern[1..], path[1..]) else None
      case Required(n) =>
        if path == [] then None
        else Bind(n, path[0], MatchSegments(pattern[1..], path[1..]))
      case Optional(n, d) =>
        if path != [] then Bind(n, path[0], MatchSegments(pattern[1..], path[1..]))
        else if d.Some? then Bind(n, d.value, MatchSegments(pattern[1..], []))
        else MatchSegments(pattern[1..], [])
  }

  /** Adds the binding `n := v` to a successful match of the rest of the pattern. */
  function Bind(n: string, v: string, rest: Option<Bindings>): (r: Option<Bindings>)
    ensures r.Some? <==> rest.Some?
    ensures r.Some? ==> r.value == rest.value[n := v]
  {
    match rest
    case None => None
    case Some(m) => Some(m[n := v])
  }

  /**
   * `new ViewPattern(pattern).matches(path)`: a match finds every literal piece of the template
   * at its own position of the path.
   */
  function Matches(pattern: string, path: string): (r: Option<Bindings>)
    ensures r.Some? ==> forall i :: 0 <= i < |Split(pattern, '/')| && ParseSegment(Split(pattern, '/')[i]).Literal? ==>
      i < |Split(path, '/')| && Split(path, '/')[i] == Split(pattern, '/')[i]
  {
    MatchSegments(Compile(pattern), Split(path, '/'))
  }

  function Names(pattern: seq<Segment>): set<string> {
    set i | 0 <= i < |pattern| && !pattern[i].Literal? :: pattern[i].name
  }

  /** The number of path segments a pattern needs at least: its literals and required captures. */
  function MinLength(pattern: seq<Segment>): nat {
    if pattern == [] then 0 else (if pattern[0].Optional? then 0 else 1) + MinLength(pattern[1..])
  }

  /** Extra path segments never match: the path may not be longer than the pattern. */
  lemma {:induction false} LongerPathNeverMatches(pattern: seq<Segment>, path: seq<string>)
    requires |path| > |pattern|
    ensures MatchSegments(pattern, path) == None
  {
    if pattern != [] {
      LongerPathNeverMatches(pattern[1..], path[1..]);
    }
  }

  /** A path with fewer segments than the pattern's literals and required captures never matches. */
  lemma {:induction false} ShorterPathNeverMatches(pattern: seq<Segment>, path: seq<string>)
    requires |path| < MinLength(pattern)
    ensures MatchSegments(pattern, path) == None
  {
    if pattern != [] {
      if path == [] {
        if pattern[0].Optional? { ShorterPathNeverMatches(pattern[1..], []); }
      } else {
        ShorterPathNeverMatches(pattern[1..], path[1..]);
      }
    }
  }

  /**
   * What a match binds: only names of captures; every required capture and every optional
   * capture with a default.
   */
  lemma {:induction false} MatchBindings(pattern: seq<Segment>, path: seq<string>)
    requires MatchSegments(pattern, path).Some?
    ensures var m := MatchSegments(pattern, path).value;
      && |path| <= |pattern|
      && m.Keys <= Names(pattern)
      && (forall i :: 0 <= i < |pattern| && pattern[i].Required? ==> pattern[i].name in m)
      && (forall i :: 0 <= i < |pattern| && pattern[i].Optional? && pattern[i].default.Some? ==>
            pattern[i].name in m)
  {
    if pattern == [] {
    } else {
      var rest := if path == [] then [] else path[1..];
      MatchBindings(pattern[1..], rest);
      var m := MatchSegments(pattern, path).value;
      var m' := MatchSegments(pattern[1..], rest).value;
      assert Names(pattern[1..]) <= Names(pattern) by {
        forall x | x in Names(pattern[1..]) ensures x in Names(pattern) {
          var i :| 0 <= i < |pattern[1..]| && !pattern[1..][i].Literal? && pattern[1..][i].name == x;
          assert pattern[i + 1] == pattern[1..][i];
        }
      }
      assert !pattern[0].Literal? ==> pattern[0].name in Names(pattern);
      assert m'.Keys <= m.Keys;
      forall i | 1 <= i < |pattern|
        ensures pattern[i] == pattern[1..][i - 1]
      {
      }
    }
  }

  /**
   * A required capture whose name no earlier capture reuses is bound to the path segment at its
   * own position: every segment before it took exactly one path segment.
   */
  lemma {:induction false} RequiredBinding(pattern: seq<Segment>, path: seq<string>, i: nat)
    requires MatchSegments(pattern, path).Some?
    requires i < |pattern| && pattern[i].Required?
    requires forall j :: 0 <= j < i && !pattern[j].Literal? ==> pattern[j].name != pattern[i].name
    ensures i < |path| && pattern[i].name in MatchSegments(pattern, path).value
    ensures MatchSegments(pattern, path).value[pattern[i].name] == path[i]
  {
    if i > 0 {
      var rest := if path == [] then [] else path[1..];
      assert pattern[1..][i - 1] == pattern[i];
      assert forall j :: 0 <= j < i - 1 ==> pattern[1..][j] == pattern[j + 1];
      RequiredBinding(pattern[1..], rest, i - 1);
    }
  }

  /** A segment list whose captures all come first gives no names to a run of literals. */
  function Literals(texts: seq<string>): (pattern: seq<Segment>)
    ensures |pattern| == |texts|
    ensures forall i :: 0 <= i < |texts| ==> pattern[i] == Literal(texts[i])
  {
    seq(|texts|, i requires 0 <= i < |texts| => Literal(texts[i]))
  }

  /**
   * A pattern of literals followed by one optional capture with default `d`: the literal prefix
   * alone binds the capture to `d`, and the prefix with one more segment binds it to that segment.
   */
  lemma {:induction false} TrailingOptional(texts: seq<string>, n: string, d: string, extra: string)
    ensures MatchSegments(Literals(texts) + [Optional(n, Some(d))], texts) == Some(map[n := d])
    ensures MatchSegments(Literals(texts) + [Optional(n, Some(d))], texts + [extra]) == Some(map[n := extra])
  {
    if texts != [] {
      var p := Literals(texts) + [Optional(n, Some(d))];
      assert p[1..] == Literals(texts[1..]) + [Optional(n, Some(d))];
      assert (texts + [extra])[1..] == texts[1..] + [extra];
      TrailingOptional(texts[1..], n, d, extra);
    }
  }

  // The assertions of ViewPatternTest.matches(), stated for any names in place of the test's
  // "user", "username", "news", "page", "posts" and its random user name.

  /** The template text `<n>`. */
  function RequiredText(n: string): string { "<" + n + ">" }

  /** The template text `[n]`. */
  function OptionalText(n: string): string { "[" + n + "]" }

  /** The template text `[n=d]`. */
  function DefaultText(n: string, d: string): string { "[" + n + "=" + d + "]" }

  /** A piece that opens with neither `<` nor `[` is a literal. */
  lemma ParseLiteral(s: string)
    requires s == [] || (s[0] != '<' && s[0] != '[')
    ensures ParseSegment(s) == Literal(s)
  {
  }

  /** `<name>` is a required capture of `name`. */
  lemma ParseRequired(n: string)
    ensures ParseSegment(RequiredText(n)) == Required(n)
    ensures '/' !in n ==> '/' !in RequiredText(n)
  {
    var s := RequiredText(n);
    assert s[1..|s| - 1] == n;
  }

  /** `[name]` is an optional capture without a default. */
  lemma ParseOptional(n: string)
    requires '=' !in n
    ensures ParseSegment(OptionalText(n)) == Optional(n, None)
    ensures '/' !in n ==> '/' !in OptionalText(n)
  {
    var s := OptionalText(n);
    assert s[1..|s| - 1] == n;
  }

  /** `[name=default]` is an optional capture with that default. */
  lemma ParseOptionalDefault(n: string, d: string)
    requires '=' !in n
    ensures ParseSegment(DefaultText(n, d)) == Optional(n, Some(d))
    ensures '/' !in n && '/' !in d ==> '/' !in DefaultText(n, d)
  {
    var s := DefaultText(n, d);
    var inner := s[1..|s| - 1];
    assert inner == n + ['='] + d;
    IndexOfAfter(n, '=', d);
    assert inner[..|n|] == n;
    assert inner[|n| + 1..] == d;
  }

  lemma SplitTwo(a: string, b: string)
    requires '/' !in a && '/' !in b
    ensures Split(a + "/" + b, '/') == [a, b]
  {
    SplitSnoc(a, '/', b);
  }

  lemma SplitThree(a: string, b: string, c: string)
    requires '/' !in a && '/' !in b && '/' !in c
    ensures Split(a + "/" + b + "/" + c, '/') == [a, b, c]
  {
    SplitTwo(a, b);
    SplitSnoc(a + "/" + b, '/', c);
  }

  lemma SplitFour(a: string, b: string, c: string, d: string)
    requires '/' !in a && '/' !in b && '/' !in c && '/' !in d
    ensures Split(a + "/" + b + "/" + c + "/" + d, '/') == [a, b, c, d]
  {
    SplitThree(a, b, c);
    SplitSnoc(a + "/" + b + "/" + c, '/', d);
  }

  lemma SplitFive(a: string, b: string, c: string, d: string, e: string)
    requires '/' !in a && '/' !in b && '/' !in c && '/' !in d && '/' !in e
    ensures Split(a + "/" + b + "/" + c + "/" + d + "/" + e, '/') == [a, b, c, d, e]
  {
    SplitFour(a, b, c, d);
    SplitSnoc(a + "/" + b + "/" + c + "/" + d, '/', e);
  }

  /** A piece a template may use as a literal: no `/`, and not read as a capture. */
  predicate PlainWord(s: string) {
    '/' !in s && (s == [] || (s[0] != '<' && s[0] != '['))
  }

  /** A capture name: no `/` and no `=`. */
  predicate Name(s: string) {
    '/' !in s && '=' !in s
  }

  /** `lit/<name>` reads as a literal and a required capture. */
  lemma CompileRequired(lit: string, name: string)
    requires PlainWord(lit) && Name(name)
    ensures Compile(lit + "/" + RequiredText(name)) == [Literal(lit), Required(name)]
  {
    ParseRequired(name);
    SplitTwo(lit, RequiredText(name));
    ParseLiteral(lit);
  }

  /** `lit/<name>` (the test's `user/<username>`) binds `name` to the one segment after `lit`. */
  lemma RequiredCaptureTest(lit: string, name: string, u: string)
    requires PlainWord(lit) && Name(name) && '/' !in u
    ensures Matches(lit + "/" + RequiredText(name), lit + "/" + u) == Some(map[name := u])
  {
    CompileRequired(lit, name);
    SplitTwo(lit, u);
    var pattern := [Literal(lit), Required(name)];
    assert pattern[1..] == [Required(name)] && pattern[1..][1..] == [];
    assert [lit, u][1..] == [u] && [u][1..] == [];
    assert MatchSegments(pattern[1..], [u]) == Some(map[name := u]) by {
      assert MatchSegments([], []) == Some(map[]);
    }
  }

  /** The same template refuses a path with two segments after `lit`. */
  lemma RequiredCaptureRejects(lit: string, name: string, v: string, w: string)
    requires PlainWord(lit) && Name(name) && '/' !in v && '/' !in w
    ensures Matches(lit + "/" + RequiredText(name), lit + "/" + v + "/" + w) == None
  {
    CompileRequired(lit, name);
    SplitThree(lit, v, w);
    LongerPathNeverMatches([Literal(lit), Required(name)], [lit, v, w]);
  }

  /** `lit/[name=d]` reads as a literal and an optional capture with default `d`. */
  lemma CompileDefault(lit: string, name: string, d: string)
    requires PlainWord(lit) && Name(name) && '/' !in d
    ensures Compile(lit + "/" + DefaultText(name, d)) == Literals([lit]) + [Optional(name, Some(d))]
  {
    ParseOptionalDefault(name, d);
    SplitTwo(lit, DefaultText(name, d));
    ParseLiteral(lit);
  }

  /**
   * `lit/[name=d]` (the test's `news/[page=0]`) binds `name` to `d` on the bare `lit`, and to the
   * segment after `lit` when there is one.
   */
  lemma DefaultCaptureTest(lit: string, name: string, d: string, u: string)
    requires PlainWord(lit) && Name(name) && '/' !in d && '/' !in u
    ensures Matches(lit + "/" + DefaultText(name, d), lit) == Some(map[name := d])
    ensures Matches(lit + "/" + DefaultText(name, d), lit + "/" + u) == Some(map[name := u])
  {
    CompileDefault(lit, name, d);
    TrailingOptional([lit], name, d, u);
    assert Split(lit, '/') == [lit];
    SplitTwo(lit, u);
    assert [lit] + [u] == [lit, u];
  }

  /** The same template refuses two segments after `lit`. */
  lemma DefaultCaptureRejects(lit: string, name: string, d: string, u: string, v: string)
    requires PlainWord(lit) && Name(name) && '/' !in d && '/' !in u && '/' !in v
    ensures Matches(lit + "/" + DefaultText(name, d), lit + "/" + u + "/" + v) == None
  {
    CompileDefault(lit, name, d);
    SplitThree(lit, u, v);
    LongerPathNeverMatches(Literals([lit]) + [Optional(name, Some(d))], [lit, u, v]);
  }

  /** `lit1/<name1>/lit2/[name2]` reads as a literal, a required capture, a literal and an optional one. */
  lemma CompileMixed(lit1: string, name1: string, lit2: string, name2: string)
    requires PlainWord(lit1) && PlainWord(lit2) && Name(name1) && Name(name2)
    ensures Compile(lit1 + "/" + RequiredText(name1) + "/" + lit2 + "/" + OptionalText(name2))
         == [Literal(lit1), Required(name1), Literal(lit2), Optional(name2, None)]
  {
    ParseRequired(name1);
    ParseOptional(name2);
    SplitFour(lit1, RequiredText(name1), lit2, OptionalText(name2));
    ParseLiteral(lit1);
    ParseLiteral(lit2);
  }

  /**
   * `lit1/<name1>/lit2/[name2]` (the test's `user/<username>/posts/[page]`): without a fourth
   * segment only `name1` is bound.
   */
  lemma {:induction false} MixedCaptureTest(lit1: string, name1: string, lit2: string, name2: string, u: string)
    requires PlainWord(lit1) && PlainWord(lit2) && Name(name1) && Name(name2) && '/' !in u
    ensures Matches(lit1 + "/" + RequiredText(name1) + "/" + lit2 + "/" + OptionalText(name2), lit1 + "/" + u + "/" + lit2)
         == Some(map[name1 := u])
  {
    CompileMixed(lit1, name1, lit2, name2);
    var pattern := [Literal(lit1), Required(name1), Literal(lit2), Optional(name2, None)];
    assert pattern[1..] == [Required(name1), Literal(lit2), Optional(name2, None)];
    assert pattern[2..] == [Literal(lit2), Optional(name2, None)];
    assert pattern[3..] == [Optional(name2, None)];
    assert pattern[4..] == [];
    SplitThree(lit1, u, lit2);
    assert [lit1, u, lit2][1..] == [u, lit2];
    assert [u, lit2][1..] == [lit2];
    assert MatchSegments(pattern[3..], []) == Some(map[]);
    assert MatchSegments(pattern[2..], [lit2]) == Some(map[]);
    assert MatchSegments(pattern[1..], [u, lit2]) == Some(map[name1 := u]);
  }

  /** With a fourth segment, `name2` is bound to it and `name1` stays bound. */
  lemma {:induction false} MixedCaptureOptional(lit1: string, name1: string, lit2: string, name2: string,
                                                u: string, page: string)
    requires PlainWord(lit1) && PlainWord(lit2) && Name(name1) && Name(name2) && name1 != name2
    requires '/' !in u && '/' !in page
    ensures Matches(lit1 + "/" + RequiredText(name1) + "/" + lit2 + "/" + OptionalText(name2),
                    lit1 + "/" + u + "/" + lit2 + "/" + page)
         == Some(map[name2 := page, name1 := u])
  {
    CompileMixed(lit1, name1, lit2, name2);
    var pattern := [Literal(lit1), Required(name1), Literal(lit2), Optional(name2, None)];
    assert pattern[1..] == [Required(name1), Literal(lit2), Optional(name2, None)];
    assert pattern[2..] == [Literal(lit2), Optional(name2, None)];
    assert pattern[3..] == [Optional(name2, None)];
    assert pattern[4..] == [];
    SplitFour(lit1, u, lit2, page);
    assert [lit1, u, lit2, page][1..] == [u, lit2, page];
    assert [u, lit2, page][1..] == [lit2, page];
    assert [lit2, page][1..] == [page];
    assert MatchSegments(pattern[3..], [page]) == Some(map[name2 := page]);
    assert MatchSegments(pattern[2..], [lit2, page]) == Some(map[name2 := page]);
    assert MatchSegments(pattern[1..], [u, lit2, page]) == Some(map[name2 := page, name1 := u]);
  }

  /** The same template refuses `lit1/`, whose required capture has no segment. */
  lemma {:induction false} MixedCaptureMissingRequired(lit1: string, name1: string, lit2: string, name2: string)
    requires PlainWord(lit1) && PlainWord(lit2) && Name(name1) && Name(name2)
    ensures Matches(lit1 + "/" + RequiredText(name1) + "/" + lit2 + "/" + OptionalText(name2), lit1 + "/") == None
  {
    CompileMixed(lit1, name1, lit2, name2);
    var pattern := [Literal(lit1), Required(name1), Literal(lit2), Optional(name2, None)];
    assert lit1 + "/" == lit1 + "/" + "";
    SplitTwo(lit1, "");
    assert MinLength(pattern) == 3 by {
      assert pattern[1..] == [Required(name1), Literal(lit2), Optional(name2, None)];
      assert pattern[1..][1..] == [Literal(lit2), Optional(name2, None)];
      assert pattern[1..][1..][1..] == [Optional(name2, None)];
      assert MinLength([Optional(name2, None)]) == 0;
      assert MinLength([Literal(lit2), Optional(name2, None)]) == 1;
    }
    ShorterPathNeverMatches(pattern, [lit1, ""]);
  }

  /** The same template refuses any path of five segments. */
  lemma MixedCaptureTooLong(lit1: string, name1: string, lit2: string, name2: string,
                            u: string, v: string, a: string, b: string)
    requires PlainWord(lit1) && PlainWord(lit2) && Name(name1) && Name(name2)
    requires '/' !in u && '/' !in v && '/' !in a && '/' !in b
    ensures Matches(lit1 + "/" + RequiredText(name1) + "/" + lit2 + "/" + OptionalText(name2),
                    lit1 + "/" + u + "/" + v + "/" + a + "/" + b) == None
  {
    CompileMixed(lit1, name1, lit2, name2);
    SplitFive(lit1, u, v, a, b);
    LongerPathNeverMatches([Literal(lit1), Required(name1), Literal(lit2), Optional(name2, None)], [lit1, u, v, a, b]);
  }
}
