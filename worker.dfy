/**
 * Worker.run without its sockets and threads: the request head is read line by line up to the
 * first empty line, a POST body is read by count, the session is chosen, the cache decides
 * whether the handler generates the body, postponed cookies are set, text bodies pass through the
 * syntax engines, and the bytes to send are chosen.
 *
 * The socket's input is given in two parts: `lines`, the lines `readLine` returns up to and
 * including the first empty one (later lines are not looked at), and `stream`, the characters
 * `read` returns after that empty line, which in Java include any further lines with their
 * terminators. The output is the byte sequence `run` writes. The
 * request parser (`new Request(raw, socket)`), the session manager, the handler, the provider
 * factories and the syntax engines are not part of this model; what `run` takes from them is a
 * parameter.
 */
module Workers {
  import opened Wrappers
  import opened Text
  import opened Responses
  import ImplCache

  // ---------------------------------------------------------------- reading the request

  /** Each line followed by `|`, as the read loop appends them. */
  function Terminated(lines: seq<string>): string {
    if lines == [] then "" else lines[0] + "|" + Terminated(lines[1..])
  }

  lemma {:induction false} TerminatedSnoc(lines: seq<string>, line: string)
    ensures Terminated(lines + [line]) == Terminated(lines) + line + "|"
  {
    if lines != [] {
      assert (lines + [line])[1..] == lines[1..] + [line];
      TerminatedSnoc(lines[1..], line);
    }
  }

  /** The number of lines before the first empty one (all of them when none is empty). */
  function HeadLength(lines: seq<string>): (n: nat)
    ensures n <= |lines|
    ensures forall i :: 0 <= i < n ==> lines[i] != ""
    ensures n < |lines| ==> lines[n] == ""
  {
    if lines == [] || lines[0] == "" then 0 else 1 + HeadLength(lines[1..])
  }

  /**
   * The read loop: `readLine` until end of stream or an empty line, appending each line and `|`.
   * `lines` is what `readLine` would return before end of stream.
   */
  method ReadHead(lines: seq<string>) returns (raw: string)
    ensures raw == Terminated(lines[..HeadLength(lines)])
  {
    raw := "";
    var i := 0;
    while i < |lines| && lines[i] != ""
      invariant 0 <= i <= HeadLength(lines)
      invariant raw == Terminated(lines[..i])
    {
      TerminatedSnoc(lines[..i], lines[i]);
      assert lines[..i + 1] == lines[..i] + [lines[i]];
      raw := raw + lines[i] + "|";
      i := i + 1;
    }
  }

  /** The terminated head is the lines joined by `|`, with an empty piece after the last `|`. */
  lemma {:induction false} TerminatedIsJoin(lines: seq<string>)
    ensures Terminated(lines) == Join(lines + [""], '|')
  {
    if lines != [] {
      TerminatedIsJoin(lines[1..]);
      assert (lines + [""])[1..] == lines[1..] + [""];
    }
  }

  /** When no line holds a `|`, splitting the raw request on `|` gives back its lines. */
  lemma SplitTerminated(lines: seq<string>)
    requires forall i :: 0 <= i < |lines| ==> '|' !in lines[i]
    ensures Split(Terminated(lines), '|') == lines + [""]
  {
    TerminatedIsJoin(lines);
    SplitJoin(lines + [""], '|');
  }

  /**
   * `Integer.parseInt(request.getHeader("Content-Length").substring(1))`: the header value
   * without its first character (the space after the colon). A missing or empty header, or text
   * that is not an `int`, throws, and the worker answers nothing.
   */
  function ContentLength(header: Option<string>): (cl: Option<int>)
    ensures header.None? || header.value == "" ==> cl.None?
    ensures header.Some? && header.value != "" ==> cl == ParseInt(header.value[1..])
  {
    match header
    case None => None
    case Some(h) => if h == "" then None else ParseInt(h[1..])
  }

  /** A length written as `Content-Length: n` reads back as `n`. */
  lemma ContentLengthOfRendered(n: int)
    requires IntMin <= n <= IntMax
    ensures ContentLength(Some(" " + IntToString(n))) == Some(n)
  {
    assert (" " + IntToString(n))[1..] == IntToString(n);
    ParseIntOfIntToString(n);
  }

  /** `(char) input.read()`: end of stream (-1) becomes the character U+FFFF. */
  const EndOfStreamChar: char := '\U{FFFF}'

  /** The character the `i`-th `read` returns. */
  function ReadChar(stream: string, i: nat): char {
    if i < |stream| then stream[i] else EndOfStreamChar
  }

  /** The POST loop: `cl` reads (none when `cl` is not positive). */
  method ReadBody(stream: string, cl: int) returns (body: string)
    ensures |body| == if cl < 0 then 0 else cl
    ensures forall i :: 0 <= i < |body| ==> body[i] == ReadChar(stream, i)
    ensures cl <= |stream| ==> body == stream[..|body|]
  {
    body := "";
    var i := 0;
    while i < cl
      invariant 0 <= i && |body| == i
      invariant cl >= 0 ==> i <= cl
      invariant cl < 0 ==> i == 0
      invariant forall j :: 0 <= j < i ==> body[j] == ReadChar(stream, j)
    {
      body := body + [ReadChar(stream, i)];
      i := i + 1;
    }
  }

  /** How reading the request can end without a request: any exception is caught and `run` returns. */
  datatype ReadError = BadContentLength

  /** What the read block yields: the raw head and, for POST, the body. */
  datatype RawRequest = RawRequest(head: string, post: Option<string>)

  /**
   * The read block of `run`. `lines` ends at the first empty line: lines after it are not part of
   * the head. `stream` is what the reader holds right after that empty line, so a POST body is
   * read from it. Whether the head is a POST and its `Content-Length` header come from the
   * request parser, which is not part of this model.
   */
  method ReadRequest(lines: seq<string>, stream: string, isPost: bool, contentLength: Option<string>)
    returns (r: Result<RawRequest, ReadError>)
    ensures !isPost ==> r == Ok(RawRequest(Terminated(lines[..HeadLength(lines)]), None))
    ensures isPost && ContentLength(contentLength).None? ==> r == Err(BadContentLength)
    ensures isPost && ContentLength(contentLength).Some? ==>
      var cl := ContentLength(contentLength).value;
      && r.Ok? && r.value.head == Terminated(lines[..HeadLength(lines)]) && r.value.post.Some?
      && |r.value.post.value| == (if cl < 0 then 0 else cl)
      && (forall i :: 0 <= i < |r.value.post.value| ==> r.value.post.value[i] == ReadChar(stream, i))
      && (cl <= |stream| ==> r.value.post.value == stream[..|r.value.post.value|])
  {
    var raw := ReadHead(lines);
    if !isPost {
      return Ok(RawRequest(raw, None));
    }
    var cl := ContentLength(contentLength);
    if cl.None? {
      return Err(BadContentLength);
    }
    var body := ReadBody(stream, cl.value);
    r := Ok(RawRequest(raw, Some(body)));
  }

  // ---------------------------------------------------------------- session and cache

  /** The session the request gets: the one found for it, or else a newly created one. */
  function ChooseSession<S>(found: Option<S>, created: S): (s: S)
    ensures found.Some? ==> s == found.value
    ensures found.None? ==> s == created
  {
    if found.Some? then found.value else created
  }

  /** The two flags of the cache decision. */
  datatype Decision = Decision(cache: bool, shouldCache: bool)

  /**
   * `cache`: caching is on and the handler is cache-applicable for this request (`applicable`
   * stands for `instanceof CacheApplicable && isApplicable(request)`); `shouldCache`: moreover
   * no body is stored for the handler.
   */
  function Decide(enabled: bool, applicable: bool, hasCache: bool): (d: Decision)
    ensures d.cache <==> enabled && applicable
    ensures d.shouldCache <==> d.cache && !hasCache
    ensures (!d.cache || d.shouldCache) <==> !(enabled && applicable) || !hasCache
  {
    var cache := enabled && applicable;
    Decision(cache, cache && !hasCache)
  }

  /**
   * The read-through cache: the handler generates the body (`generated`) unless the body may be
   * cached and one is stored; a generated cacheable body is stored under the handler.
   */
  method Respond<P(!new), H(!new), F, B>(cm: ImplCache.CacheManager<P, H, F, B>, handler: H,
                                          enabled: bool, applicable: bool, generated: B)
    returns (body: B, generateCalled: bool)
    modifies cm`bodies
    ensures generateCalled <==> !(enabled && applicable) || !old(cm.HasCache(handler))
    ensures generateCalled ==> body == generated
    ensures !generateCalled ==> old(cm.GetCache(handler)).Some? && body == old(cm.GetCache(handler)).value.body
    ensures enabled && applicable && !old(cm.HasCache(handler)) ==>
      cm.bodies == old(cm.bodies)[cm.viewKey(handler) := ImplCache.CachedResponse(generated)]
    ensures !(enabled && applicable && !old(cm.HasCache(handler))) ==> cm.bodies == old(cm.bodies)
    ensures enabled && applicable ==> cm.GetCache(handler) == Some(ImplCache.CachedResponse(body))
  {
    var d := Decide(enabled, applicable, cm.HasCache(handler));
    if !d.cache || d.shouldCache {
      body := generated;
      generateCalled := true;
    } else {
      body := cm.GetCache(handler).value.body;
      generateCalled := false;
    }
    if d.shouldCache {
      cm.SetCache(handler, body);
    }
  }

  // ---------------------------------------------------------------- cookies

  /** The postponed-cookie loop: every postponed cookie is set on the body's header. */
  method ApplyCookies(header: Header, postponed: map<string, string>)
    modifies header`cookies
    ensures header.cookies == old(header.cookies) + postponed
  {
    var todo := postponed.Keys;
    while todo != {}
      invariant todo <= postponed.Keys
      invariant header.cookies == old(header.cookies) + map k | k in postponed.Keys - todo :: postponed[k]
      decreases todo
    {
      var k :| k in todo;
      header.SetCookie(k, postponed[k]);
      todo := todo - {k};
    }
    assert postponed == map k | k in postponed.Keys - todo :: postponed[k];
  }

  // ---------------------------------------------------------------- provider factories

  /** The global factories by lower-cased provider name; a later factory replaces an earlier one. */
  function Factories<F>(providers: seq<F>, providerName: F -> string): map<string, F> {
    if providers == [] then map[]
    else
      var last := providers[|providers| - 1];
      Factories(providers[..|providers| - 1], providerName)[ToLower(providerName(last)) := last]
  }

  /** The handler's own factory, when it has one, replaces the global one of the same name. */
  function WithHandlerFactory<F>(factories: map<string, F>, own: Option<F>, providerName: F -> string): (m: map<string, F>)
    ensures own.None? ==> m == factories
    ensures own.Some? ==> m == factories[ToLower(providerName(own.value)) := own.value]
  {
    match own
    case None => factories
    case Some(f) => factories[ToLower(providerName(f)) := f]
  }

  /** The factory map of `run`: global factories, then the handler's own. */
  method BuildFactories<F>(providers: seq<F>, own: Option<F>, providerName: F -> string) returns (factories: map<string, F>)
    ensures factories == WithHandlerFactory(Factories(providers, providerName), own, providerName)
  {
    factories := map[];
    var i := 0;
    while i < |providers|
      invariant 0 <= i <= |providers|
      invariant factories == Factories(providers[..i], providerName)
    {
      assert providers[..i + 1][..i] == providers[..i];
      factories := factories[ToLower(providerName(providers[i])) := providers[i]];
      i := i + 1;
    }
    assert providers[..i] == providers;
    if own.Some? {
      factories := factories[ToLower(providerName(own.value)) := own.value];
    }
  }

  lemma ToLowerIdempotent(s: string)
    ensures ToLower(ToLower(s)) == ToLower(s)
  {
    assert forall i :: 0 <= i < |s| ==> ToLowerChar(ToLowerChar(s[i])) == ToLowerChar(s[i]);
  }

  /**
   * Every key of the factory map is in lower case, and each key holds the last global factory
   * whose lower-cased name it is.
   */
  lemma {:induction false} FactoriesKeys<F>(providers: seq<F>, providerName: F -> string, key: string)
    ensures key in Factories(providers, providerName) ==> ToLower(key) == key
    ensures key in Factories(providers, providerName) <==>
      exists i :: 0 <= i < |providers| && ToLower(providerName(providers[i])) == key
    ensures key in Factories(providers, providerName) ==>
      exists i :: 0 <= i < |providers| && ToLower(providerName(providers[i])) == key
        && Factories(providers, providerName)[key] == providers[i]
        && forall j :: i < j < |providers| ==> ToLower(providerName(providers[j])) != key
  {
    if providers != [] {
      var n := |providers| - 1;
      var init := providers[..n];
      FactoriesKeys(init, providerName, key);
      assert forall i :: 0 <= i < n ==> init[i] == providers[i];
      if ToLower(providerName(providers[n])) == key {
        ToLowerIdempotent(providerName(providers[n]));
      } else if key in Factories(init, providerName) {
        var i :| 0 <= i < n && ToLower(providerName(init[i])) == key
          && Factories(init, providerName)[key] == init[i]
          && forall j :: i < j < n ==> ToLower(providerName(init[j])) != key;
        assert forall j :: i < j < |providers| ==> ToLower(providerName(providers[j])) != key;
      }
    }
  }

  /** The handler's own factory wins over every global one of the same name. */
  lemma HandlerFactoryWins<F>(providers: seq<F>, own: F, providerName: F -> string)
    ensures WithHandlerFactory(Factories(providers, providerName), Some(own), providerName)[ToLower(providerName(own))] == own
  {
  }

  // ---------------------------------------------------------------- syntax engines

  /**
   * The text after the syntax engines, in list order: each engine that `matches` the text so far
   * replaces it with what its `handle` returns (`handle` is given the request and factories).
   */
  function Crush<Syn, F>(syntaxes: seq<Syn>, text: string, matches: (Syn, string) -> bool,
                         handle: (Syn, string, map<string, F>) -> string, factories: map<string, F>): string
  {
    if syntaxes == [] then text
    else
      var before := Crush(syntaxes[..|syntaxes| - 1], text, matches, handle, factories);
      var s := syntaxes[|syntaxes| - 1];
      if matches(s, before) then handle(s, before, factories) else before
  }

  /** Running two lists of engines one after the other is running their concatenation. */
  lemma {:induction false} CrushAppend<Syn, F>(a: seq<Syn>, b: seq<Syn>, text: string, matches: (Syn, string) -> bool,
                                               handle: (Syn, string, map<string, F>) -> string, factories: map<string, F>)
    ensures Crush(a + b, text, matches, handle, factories)
         == Crush(b, Crush(a, text, matches, handle, factories), matches, handle, factories)
  {
    if b != [] {
      var n := |b| - 1;
      assert (a + b)[..|a + b| - 1] == a + b[..n];
      CrushAppend(a, b[..n], text, matches, handle, factories);
    } else {
      assert a + b == a;
    }
  }

  /** Engines that never match leave the text as it is. */
  lemma {:induction false} CrushUnmatched<Syn, F>(syntaxes: seq<Syn>, text: string, matches: (Syn, string) -> bool,
                                                  handle: (Syn, string, map<string, F>) -> string, factories: map<string, F>)
    requires forall i :: 0 <= i < |syntaxes| ==> !matches(syntaxes[i], text)
    ensures Crush(syntaxes, text, matches, handle, factories) == text
  {
    if syntaxes != [] {
      CrushUnmatched(syntaxes[..|syntaxes| - 1], text, matches, handle, factories);
    }
  }

  /** The syntax loop of `run`. */
  method ApplySyntaxes<Syn, F>(syntaxes: seq<Syn>, text: string, matches: (Syn, string) -> bool,
                               handle: (Syn, string, map<string, F>) -> string, factories: map<string, F>)
    returns (result: string)
    ensures result == Crush(syntaxes, text, matches, handle, factories)
  {
    result := text;
    var i := 0;
    while i < |syntaxes|
      invariant 0 <= i <= |syntaxes|
      invariant result == Crush(syntaxes[..i], text, matches, handle, factories)
    {
      assert syntaxes[..i + 1][..i] == syntaxes[..i];
      if matches(syntaxes[i], result) {
        result := handle(syntaxes[i], result, factories);
      }
      i := i + 1;
    }
    assert syntaxes[..i] == syntaxes;
  }

  // ---------------------------------------------------------------- the bytes sent

  /**
   * The bytes `run` writes: the encoded text of a text body (after the syntax engines, unless the
   * handler ignores syntax), the body's bytes otherwise. `encode` stands for `String.getBytes()`.
   */
  function OutputBytes(isText: bool, text: string, bytes: seq<byte>, encode: string -> seq<byte>): (out: seq<byte>)
    ensures isText ==> out == encode(text)
    ensures !isText ==> out == bytes
  {
    if isText then encode(text) else bytes
  }

  /**
   * The part of `run` after the body is chosen: postponed cookies, the syntax pass and the byte
   * selection.
   */
  method Finish<F, Syn>(body: Response, ignoreSyntax: bool, postponed: map<string, string>,
                        providers: seq<F>, own: Option<F>, providerName: F -> string,
                        syntaxes: seq<Syn>, matches: (Syn, string) -> bool,
                        handle: (Syn, string, map<string, F>) -> string, encode: string -> seq<byte>)
    returns (out: seq<byte>)
    modifies body.header`cookies
    ensures body.header.cookies == old(body.header.cookies) + postponed
    ensures !body.isText ==> out == body.bytes
    ensures body.isText && ignoreSyntax ==> out == encode(body.content)
    ensures body.isText && !ignoreSyntax ==>
      out == encode(Crush(syntaxes, body.content, matches, handle,
                          WithHandlerFactory(Factories(providers, providerName), own, providerName)))
  {
    var textContent := "";
    var bytes: seq<byte> := [];
    if body.isText {
      textContent := body.content;
    } else {
      bytes := body.bytes;
    }
    ApplyCookies(body.header, postponed);
    if body.isText {
      if !ignoreSyntax {
        var factories := BuildFactories(providers, own, providerName);
        textContent := ApplySyntaxes(syntaxes, textContent, matches, handle, factories);
      }
    }
    out := OutputBytes(body.isText, textContent, bytes, encode);
  }
}
