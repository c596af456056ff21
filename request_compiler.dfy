/**
 * RequestCompiler: reads an HTTP request line (`METHOD SP RESOURCE SP [TYPE/VERSION]`) and a
 * header line (`key : value`) by the two regular expressions of the source, whose character sets
 * are narrower than those of RFC 7230 (sections 3.1.1 and 3.2).
 *
 * Each grammar is written twice: as a scanner (`ParseHeaderParts`, `ParseQuery`), which takes
 * the same choices the regular-expression engine makes, and as a shape predicate over the parts
 * of a line (`HeaderShape`, `QueryShape`). The scanner returns exactly the parts of the shape.
 */
module RequestCompiler {
  import opened Wrappers
  import opened Text

  /** `\s` of java.util.regex: space, tab, newline, vertical tab, form feed, carriage return. */
  predicate IsSpace(c: char) {
    c == ' ' || c == '\t' || c == '\n' || c == '\U{0B}' || c == '\U{0C}' || c == '\r'
  }

  /** The characters `.` does not match: Java's line terminators. */
  predicate IsLineTerminator(c: char) {
    c == '\n' || c == '\r' || c == '\U{85}' || c == '\U{2028}' || c == '\U{2029}'
  }

  /** `[A-Za-z-_0-9]`: letters, digits, `-` and `_`. */
  predicate IsKeyChar(c: char) {
    IsLetter(c) || IsDigit(c) || c == '-' || c == '_'
  }

  /** `[/\-A-Za-z0-9.?=&:@!%]` */
  predicate IsResourceChar(c: char) {
    IsLetter(c) || IsDigit(c) || c in "/-.?=&:@!%"
  }

  /** `[A-Za-z0-9.]` */
  predicate IsVersionChar(c: char) {
    IsLetter(c) || IsDigit(c) || c == '.'
  }

  /** The character classes of the two regular expressions. */
  datatype CharClass = KeyChars | Spaces | Letters | ResourceChars | VersionChars

  predicate In(c: char, k: CharClass) {
    match k
    case KeyChars => IsKeyChar(c)
    case Spaces => IsSpace(c)
    case Letters => IsLetter(c)
    case ResourceChars => IsResourceChar(c)
    case VersionChars => IsVersionChar(c)
  }

  predicate All(s: string, k: CharClass) {
    forall i :: 0 <= i < |s| ==> In(s[i], k)
  }

  /** The length of the longest prefix of `s` whose characters all satisfy `p` (a greedy `p*`). */
  function Span(s: string, k: CharClass): (n: nat)
    ensures n <= |s| && All(s[..n], k)
    ensures n < |s| ==> !In(s[n], k)
  {
    if s == [] || !In(s[0], k) then 0
    else
      var n := Span(s[1..], k);
      assert s[..n + 1] == [s[0]] + s[1..][..n];
      n + 1
  }

  /** A greedy span stops exactly at the first character outside `p`. */
  lemma {:induction false} SpanOf(a: string, b: string, k: CharClass)
    requires All(a, k)
    requires b == [] || !In(b[0], k)
    ensures Span(a + b, k) == |a|
  {
    if a != [] {
      assert (a + b)[1..] == a[1..] + b;
      SpanOf(a[1..], b, k);
    }
  }

  // ---------------------------------------------------------------- header lines

  /** `compileHeader`'s result: the key, lower-cased, and the value. */
  datatype HeaderPair = HeaderPair(key: string, value: string)

  /** The pieces of a header line the regular expression tells apart. */
  datatype HeaderParts = HeaderParts(key: string, before: string, after: string, value: string)

  function HeaderText(h: HeaderParts): string {
    h.key + h.before + ":" + h.after + h.value
  }

  predicate NoLineTerminator(s: string) {
    forall i :: 0 <= i < |s| ==> !IsLineTerminator(s[i])
  }

  /** `\s*(?<value>.*$)`: spaces the greedy `\s*` takes in full, then a value of one line. */
  predicate ValueShape(s: string, after: string, value: string) {
    && s == after + value
    && All(after, Spaces)
    && (value == [] || !IsSpace(value[0]))
    && NoLineTerminator(value)
  }

  /** `\s*:` followed by the value. */
  predicate SeparatorShape(s: string, before: string, after: string, value: string) {
    && All(before, Spaces)
    && |s| > |before| && s[..|before|] == before && s[|before|] == ':'
    && ValueShape(s[|before| + 1..], after, value)
  }

  /**
   * `(?<key>[A-Za-z-_0-9]+)\s*:\s*(?<value>.*$)` matching all of `line`: a non-empty key, spaces,
   * a colon, spaces the greedy `\s*` takes in full (so the value does not start with one), and a
   * value free of line terminators.
   */
  predicate HeaderShape(line: string, h: HeaderParts) {
    && |h.key| >= 1 && All(h.key, KeyChars)
    && |line| >= |h.key| && line[..|h.key|] == h.key
    && SeparatorShape(line[|h.key|..], h.before, h.after, h.value)
  }

  /** The shape describes the text of the parts. */
  lemma HeaderShapeText(line: string, h: HeaderParts)
    requires HeaderShape(line, h)
    ensures line == HeaderText(h)
  {
    var rest := line[|h.key|..];
    assert line == h.key + rest;
    assert rest == h.before + ":" + rest[|h.before| + 1..];
  }

  function ParseValue(s: string): (r: Option<(string, string)>)
    ensures r.Some? ==> ValueShape(s, r.value.0, r.value.1)
  {
    var a := Span(s, Spaces);
    if NoLineTerminator(s[a..]) then
      assert s == s[..a] + s[a..];
      Some((s[..a], s[a..]))
    else None
  }

  lemma ParseValueComplete(s: string, after: string, value: string)
    requires ValueShape(s, after, value)
    ensures ParseValue(s) == Some((after, value))
  {
    SpanOf(after, value, Spaces);
  }

  function ParseSeparator(s: string): (r: Option<(string, string, string)>)
    ensures r.Some? ==> SeparatorShape(s, r.value.0, r.value.1, r.value.2)
  {
    var b := Span(s, Spaces);
    if b == |s| || s[b] != ':' then None
    else
      match ParseValue(s[b + 1..])
      case None => None
      case Some(v) => Some((s[..b], v.0, v.1))
  }

  lemma ParseSeparatorComplete(s: string, before: string, after: string, value: string)
    requires SeparatorShape(s, before, after, value)
    ensures ParseSeparator(s) == Some((before, after, value))
  {
    assert s == before + s[|before|..];
    SpanOf(before, s[|before|..], Spaces);
    ParseValueComplete(s[|before| + 1..], after, value);
  }

  /** The regular-expression match of a header line, as a left-to-right scan. */
  function ParseHeaderParts(line: string): (r: Option<HeaderParts>)
    ensures r.Some? ==> HeaderShape(line, r.value)
  {
    var k := Span(line, KeyChars);
    if k == 0 then None
    else
      match ParseSeparator(line[k..])
      case None => None
      case Some(t) => Some(HeaderParts(line[..k], t.0, t.1, t.2))
  }

  /** Every line of the header shape is read back into exactly its parts. */
  lemma ParseHeaderComplete(line: string, h: HeaderParts)
    requires HeaderShape(line, h)
    ensures ParseHeaderParts(line) == Some(h)
  {
    var rest := line[|h.key|..];
    assert line == h.key + rest;
    assert !In(rest[0], KeyChars) by {
      if h.before != [] { assert rest[0] == h.before[0]; } else { assert rest[0] == ':'; }
    }
    SpanOf(h.key, rest, KeyChars);
    ParseSeparatorComplete(rest, h.before, h.after, h.value);
  }

  /** A line is a header line exactly when it has the header shape, and then its parts are unique. */
  lemma HeaderShapeUnique(line: string, h1: HeaderParts, h2: HeaderParts)
    requires HeaderShape(line, h1) && HeaderShape(line, h2)
    ensures h1 == h2
  {
    ParseHeaderComplete(line, h1);
    ParseHeaderComplete(line, h2);
  }

  /**
   * `compileHeader(line)`: the key lower-cased (English locale; ASCII here) and the value, or
   * None (`Optional.empty()`) when the line is not a header line.
   */
  function CompileHeader(line: string): (r: Option<HeaderPair>)
    ensures r.None? <==> ParseHeaderParts(line).None?
    ensures r.Some? ==> var h := ParseHeaderParts(line).value;
      HeaderShape(line, h) && r.value == HeaderPair(ToLower(h.key), h.value)
  {
    match ParseHeaderParts(line)
    case None => None
    case Some(h) => Some(HeaderPair(ToLower(h.key), h.value))
  }

  /** `Key: value` as a client writes it reads back as the lower-cased key and the value. */
  lemma CompileHeaderOfRendered(key: string, value: string)
    requires |key| >= 1 && All(key, KeyChars)
    requires value == [] || !IsSpace(value[0])
    requires forall i :: 0 <= i < |value| ==> !IsLineTerminator(value[i])
    ensures CompileHeader(key + ": " + value) == Some(HeaderPair(ToLower(key), value))
  {
    var line := key + ": " + value;
    var h := HeaderParts(key, "", " ", value);
    assert line[..|key|] == key;
    assert line[|key|..] == ": " + value;
    assert (": " + value)[1..] == " " + value;
    ParseHeaderComplete(line, h);
  }

  /** Keys come out lower-case: reading a header twice over gives the same key. */
  lemma CompileHeaderKeyLowerCase(line: string)
    requires CompileHeader(line).Some?
    ensures var k := CompileHeader(line).value.key;
      |k| >= 1 && ToLower(k) == k && forall i :: 0 <= i < |k| ==> !IsUpper(k[i])
  {
  }

  // ---------------------------------------------------------------- request lines

  datatype Protocol = Protocol(kind: string, version: string)

  /** The groups of PATTERN_QUERY: method, resource and the optional protocol. */
  datatype QueryLine = QueryLine(verb: string, resource: string, protocol: Option<Protocol>)

  function ProtocolText(p: Option<Protocol>): string {
    match p
    case None => ""
    case Some(pr) => pr.kind + "/" + pr.version
  }

  function QueryText(q: QueryLine): string {
    q.verb + " " + (q.resource + " " + ProtocolText(q.protocol))
  }

  predicate WellFormedProtocol(p: Protocol) {
    |p.kind| >= 1 && All(p.kind, Letters) && |p.version| >= 1 && All(p.version, VersionChars)
  }

  /**
   * `[A-Za-z]+ [/\-A-Za-z0-9.?=&:@!%]* ([A-Za-z]+/[A-Za-z0-9.]+)?`: the resource may be empty,
   * the space after it is required, and the protocol may be left out.
   */
  predicate QueryShape(line: string, q: QueryLine) {
    && line == QueryText(q)
    && |q.verb| >= 1 && All(q.verb, Letters)
    && All(q.resource, ResourceChars)
    && (q.protocol.Some? ==> WellFormedProtocol(q.protocol.value))
  }

  /** `[A-Za-z]+/[A-Za-z0-9.]+` matching all of `s`. */
  function ParseProtocol(s: string): (r: Option<Protocol>)
    ensures r.Some? ==> WellFormedProtocol(r.value) && s == ProtocolText(r)
  {
    var t := Span(s, Letters);
    if t == 0 || t == |s| || s[t] != '/' then None
    else
      var version := s[t + 1..];
      if version == [] || exists i :: 0 <= i < |version| && !IsVersionChar(version[i]) then None
      else
        assert s == s[..t] + "/" + version by { assert s == s[..t] + [s[t]] + version; }
        Some(Protocol(s[..t], version))
  }

  /** `([A-Za-z]+/[A-Za-z0-9.]+)?` matching all of `s`. */
  function ParseOptionalProtocol(s: string): (r: Option<Option<Protocol>>)
    ensures r.Some? ==> s == ProtocolText(r.value)
    ensures r.Some? && r.value.Some? ==> WellFormedProtocol(r.value.value)
  {
    if s == [] then Some(None)
    else
      match ParseProtocol(s)
      case None => None
      case Some(p) => Some(Some(p))
  }

  /** What follows the method's space: the resource, a space and the optional protocol. */
  function ParseAfterVerb(s: string): (r: Option<(string, Option<Protocol>)>)
    ensures r.Some? ==> s == r.value.0 + " " + ProtocolText(r.value.1) && All(r.value.0, ResourceChars)
    ensures r.Some? && r.value.1.Some? ==> WellFormedProtocol(r.value.1.value)
  {
    var n := Span(s, ResourceChars);
    if n == |s| || s[n] != ' ' then None
    else
      match ParseOptionalProtocol(s[n + 1..])
      case None => None
      case Some(p) =>
        assert s == s[..n] + " " + s[n + 1..];
        Some((s[..n], p))
  }

  /** The regular-expression match of a request line, as a left-to-right scan. */
  function ParseQuery(line: string): (r: Option<QueryLine>)
    ensures r.Some? ==> QueryShape(line, r.value)
  {
    var m := Span(line, Letters);
    if m == 0 || m == |line| || line[m] != ' ' then None
    else
      match ParseAfterVerb(line[m + 1..])
      case None => None
      case Some(t) =>
        assert line == line[..m] + " " + line[m + 1..];
        Some(QueryLine(line[..m], t.0, t.1))
  }

  lemma ParseProtocolComplete(p: Protocol)
    requires WellFormedProtocol(p)
    ensures ParseProtocol(ProtocolText(Some(p))) == Some(p)
  {
    var s := ProtocolText(Some(p));
    assert s == p.kind + ("/" + p.version);
    SpanOf(p.kind, "/" + p.version, Letters);
    assert s[|p.kind| + 1..] == p.version;
  }

  lemma ParseAfterVerbComplete(resource: string, protocol: Option<Protocol>)
    requires All(resource, ResourceChars)
    requires protocol.Some? ==> WellFormedProtocol(protocol.value)
    ensures ParseAfterVerb(resource + " " + ProtocolText(protocol)) == Some((resource, protocol))
  {
    var tail := ProtocolText(protocol);
    var s := resource + " " + tail;
    assert s == resource + (" " + tail);
    SpanOf(resource, " " + tail, ResourceChars);
    assert s[|resource| + 1..] == tail;
    if protocol.Some? {
      ParseProtocolComplete(protocol.value);
    }
  }

  /** Every request line of the shape is read back into exactly its groups. */
  lemma ParseQueryComplete(line: string, q: QueryLine)
    requires QueryShape(line, q)
    ensures ParseQuery(line) == Some(q)
  {
    var rest := q.resource + " " + ProtocolText(q.protocol);
    assert line == q.verb + (" " + rest);
    SpanOf(q.verb, " " + rest, Letters);
    assert line[|q.verb| + 1..] == rest;
    ParseAfterVerbComplete(q.resource, q.protocol);
  }

  /** A line is a request line of at most one reading. */
  lemma QueryShapeUnique(line: string, q1: QueryLine, q2: QueryLine)
    requires QueryShape(line, q1) && QueryShape(line, q2)
    ensures q1 == q2
  {
    ParseQueryComplete(line, q1);
    ParseQueryComplete(line, q2);
  }

  /** Requests are compiled against the lines a client sends: `GET /index.html HTTP/1.1`. */
  lemma ParseQueryOfRendered(verb: string, resource: string, version: string)
    requires |verb| >= 1 && All(verb, Letters) && All(resource, ResourceChars)
    requires |version| >= 1 && All(version, VersionChars)
    ensures ParseQuery(verb + " " + resource + " HTTP/" + version)
         == Some(QueryLine(verb, resource, Some(Protocol("HTTP", version))))
  {
    var q := QueryLine(verb, resource, Some(Protocol("HTTP", version)));
    assert verb + " " + resource + " HTTP/" + version == QueryText(q);
    ParseQueryComplete(QueryText(q), q);
  }

  // ---------------------------------------------------------------- compileQuery

  /** `AbstractRequest.Query`: the request method and the requested resource. */
  datatype Query<M> = Query(verb: M, resource: string)

  datatype QueryError =
    | NotAQueryLine                  // IllegalArgumentException("Not a query line")
    | UnknownMethod(name: string)    // RequestException("Unknown request method: " + name)

  /** The request whose query `compileQuery` sets; its other state is not part of this model. */
  class Request<M> {
    var query: Option<Query<M>>

    constructor ()
      ensures query == None
    {
      query := None;
    }
  }

  /**
   * `compileQuery(request, line)`: an ill-formed line and an unknown method name (looked up by
   * `getByName`, the `HttpMethod.getByName` of the server) are errors that leave the request
   * alone; otherwise the request's query becomes the method and the resource, and nothing else
   * about the request changes.
   */
  method CompileQuery<M>(request: Request<M>, line: string, getByName: string -> Option<M>)
    returns (r: Result<(), QueryError>)
    modifies request`query
    ensures ParseQuery(line).None? ==> r == Err(NotAQueryLine) && request.query == old(request.query)
    ensures ParseQuery(line).Some? ==> var q := ParseQuery(line).value;
      && (getByName(q.verb).None? ==>
            r == Err(UnknownMethod(q.verb)) && request.query == old(request.query))
      && (getByName(q.verb).Some? ==>
            r == Ok(()) && request.query == Some(Query(getByName(q.verb).value, q.resource)))
  {
    var parsed := ParseQuery(line);
    if parsed.None? {
      return Err(NotAQueryLine);
    }
    var q := parsed.value;
    var found := getByName(q.verb);
    if found.None? {
      return Err(UnknownMethod(q.verb));
    }
    request.query := Some(Query(found.value, q.resource));
    r := Ok(());
  }
}
