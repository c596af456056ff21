# Kvantum core, modelled in Dafny

This project models the core of Kvantum (earlier IntellectualServer), a Java HTTP server. It covers:

- **Request handling.** The worker reads a request and picks a handler through the request manager, an ordered list that refuses duplicate handler patterns. It asks the cache whether a stored body may be served instead of a generated one. It sets postponed cookies, runs text bodies through the syntax engines, and chooses the bytes to send.
- **Parsing and routing.** The request compiler reads the request line and header lines. View patterns route paths to handlers and bind path variables.
- **Caches.** Two cache managers: the implementation's and the server API's.
- **Output.** The asynchronous buffered output stream sits between the producer and the socket.
- **Responses and views.** The response object; the simple regular-expression handler; the 404 view; the static-file views (standard, download and JavaScript); the file-extension table.
- **Accounts.** The default methods of the account manager.

Each Java class whose fields change is a Dafny `class`, with the same fields as `seq`, `map` or `array`, and methods that state the whole new state. Java's `null` and exceptions are modelled with `Option` and `Result`. Every loop of the source is a method proved against a function that specifies it, and the lemmas beside that function prove what the source promises:

- adding and removing handlers keeps patterns unique;
- the output stream loses and reorders no byte;
- every extension alias finds its own constant;
- the scanners read back exactly the lines of the regular-expression shapes;
- a cached body is what the next request gets.

Files, one module each:

| file | module | source |
|---|---|---|
| `wrappers.dfy` | `Wrappers` | Option and Result |
| `text.dfy` | `Text` | ASCII case folding, prefix and suffix tests, split and join, decimal rendering and `Integer.parseInt` |
| `sequences.dfy` | `Sequences` | `LambdaUtil.getFirst` |
| `router.dfy` | `Router` | RequestManager |
| `async_output.dfy` | `AsyncOutput` | AsyncBufferedOutputStream |
| `view_pattern.dfy` | `ViewPattern` | ViewPattern, as its test states it |
| `request_compiler.dfy` | `RequestCompiler` | RequestCompiler |
| `impl_cache.dfy` | `ImplCache` | the implementation's CacheManager |
| `api_cache.dfy` | `ApiCache` | the server API's CacheManager |
| `response.dfy` | `Responses` | Response, and the parts of Header it uses |
| `extension.dfy` | `Extensions` | Extension |
| `accounts.dfy` | `Accounts` | IAccountManager's default methods |
| `simple_handler.dfy` | `SimpleHandlers` | SimpleRequestHandler |
| `view404.dfy` | `NotFound` | View404 |
| `static_views.dfy` | `StaticViews` | StandardView, DownloadView, the server API's JSView |
| `js_view.dfy` | `JavaScriptView` | the plotsquared JSView |
| `worker.dfy` | `Workers` | Worker.run |

Behaviour of the code that its documentation does not suggest (the class comment of AsyncBufferedOutputStream, `AsyncBufferedOutputStream.java:33-35`, says an asynchronous failure is thrown on the next write or on close):

- **`close()` can leave the underlying stream open.** When a flusher error was already recorded, `close()` throws it before entering its `try` block, so the underlying stream is not closed on that path (`AsyncBufferedOutputStream.java:163-167`).
- **`flush()` does not re-raise a recorded flusher error** (`AsyncBufferedOutputStream.java:138-142`).
- **View patterns keep empty segments.** ViewPattern's own source is not available; its matcher is written from its test. The path is split keeping empty segments, where Java's `String.split` drops trailing empty ones. The test's outcomes are the same either way.

## Model

| member | source | states |
|---|---|---|
| Text.ToLower | ServerAPI/src/main/java/xyz/kvantum/server/api/request/RequestCompiler.java:55 | `toLowerCase(Locale.ENGLISH)` on ASCII: same length, each character folded on its own |
| Text.EqualsIgnoreCaseIsEquivalence | FileSystem/src/main/java/xyz/kvantum/files/Extension.java:53 | `equalsIgnoreCase` is reflexive, symmetric and transitive |
| Text.JoinSplit | src/main/java/com/intellectualsites/web/core/Worker.java:84 | joining the pieces of a split on a separator gives back the string |
| Text.SplitJoin | src/main/java/com/intellectualsites/web/core/Worker.java:84 | splitting pieces that hold no separator, once joined, gives back the pieces |
| Text.NatToStringInjective | src/main/java/com/intellectualsites/web/views/requesthandler/SimpleRequestHandler.java:24 | distinct counter values print as distinct decimal strings |
| Text.DigitsValueOfNatToString | src/main/java/com/intellectualsites/web/views/requesthandler/SimpleRequestHandler.java:24 | the decimal text of a number reads back as that number |
| Text.ParseInt | src/main/java/com/intellectualsites/web/core/Worker.java:90 | `Integer.parseInt` succeeds only with a value in the 32-bit range |
| Text.ParseIntShape | src/main/java/com/intellectualsites/web/core/Worker.java:90 | an accepted text is an optional sign followed by at least one ASCII digit, and its value is the digits' value with that sign |
| Text.ParseIntOfSignedDigits | src/main/java/com/intellectualsites/web/core/Worker.java:90 | every optional sign followed by digits whose value fits in 32 bits is accepted with that value |
| Text.ParseIntOfIntToString | src/main/java/com/intellectualsites/web/core/Worker.java:90 | every 32-bit value printed in decimal parses back to itself |
| Sequences.FirstIndex | ServerAPI/src/main/java/com/github/intellectualsites/kvantum/api/util/RequestManager.java:63-64 | `LambdaUtil.getFirst`: the first index satisfying the predicate, and none exactly when no element does |
| Router.AppendKeepsUnique | ServerAPI/src/main/java/com/github/intellectualsites/kvantum/api/util/RequestManager.java:63-69 | appending a handler that clashes with none keeps handler texts pairwise distinct ignoring case |
| Router.DeleteKeepsUnique | ServerAPI/src/main/java/com/github/intellectualsites/kvantum/api/util/RequestManager.java:106-109 | removing a handler keeps handler texts pairwise distinct |
| Router.RequestManager.constructor | ServerAPI/src/main/java/com/github/intellectualsites/kvantum/api/util/RequestManager.java:41-51 | an empty handler list with the given 404 generator; the uniqueness invariant holds |
| Router.RequestManager.Add | ServerAPI/src/main/java/com/github/intellectualsites/kvantum/api/util/RequestManager.java:59-71 | a handler whose text equals a registered one ignoring case is refused and nothing changes; otherwise it is appended and returned; uniqueness is kept |
| Router.RequestManager.Match | ServerAPI/src/main/java/com/github/intellectualsites/kvantum/api/util/RequestManager.java:80-90 | the first registered handler the request matches, in registration order; the 404 generator's handler exactly when none matches; reads the list without changing it |
| Router.RequestManager.Remove | ServerAPI/src/main/java/com/github/intellectualsites/kvantum/api/util/RequestManager.java:102-110 | the first occurrence of the handler is deleted and the order of the rest kept; an absent handler changes nothing |
| Router.RequestManager.SetError404Generator | ServerAPI/src/main/java/com/github/intellectualsites/kvantum/api/util/RequestManager.java:47-51 | the generator is replaced and the handler list kept, so unmatched requests now go to the new generator |
| Router.RequestManager.Clear | ServerAPI/src/main/java/com/github/intellectualsites/kvantum/api/util/RequestManager.java:113-116 | no handler is left |
| AsyncOutput.AsyncBufferedOutputStream.constructor | ServerAPI/src/main/java/com/github/intellectualsites/kvantum/api/io/AsyncBufferedOutputStream.java:74-80 | an empty buffer of the requested size, an empty queue, no error; nothing written yet |
| AsyncOutput.AsyncBufferedOutputStream.FlusherError | ServerAPI/src/main/java/com/github/intellectualsites/kvantum/api/io/AsyncBufferedOutputStream.java:186-193 | an error is raised exactly when the flusher recorded one, carrying the recorded cause |
| AsyncOutput.AsyncBufferedOutputStream.ForceFlush | ServerAPI/src/main/java/com/github/intellectualsites/kvantum/api/io/AsyncBufferedOutputStream.java:152-161 | a non-empty buffer becomes one chunk of exactly `count` bytes at the queue's tail and the buffer is emptied; the written bytes are unchanged |
| AsyncOutput.AsyncBufferedOutputStream.FlushBufferIfSizeLimitReached | ServerAPI/src/main/java/com/github/intellectualsites/kvantum/api/io/AsyncBufferedOutputStream.java:144-150 | a full buffer is sealed, anything else is left; afterwards there is room for a byte |
| AsyncOutput.AsyncBufferedOutputStream.Flush | ServerAPI/src/main/java/com/github/intellectualsites/kvantum/api/io/AsyncBufferedOutputStream.java:138-142 | the buffer is queued whatever its fill; no byte is lost or reordered |
| AsyncOutput.AsyncBufferedOutputStream.Store | ServerAPI/src/main/java/com/github/intellectualsites/kvantum/api/io/AsyncBufferedOutputStream.java:93 | the byte's low eight bits are appended to the buffer and to the written bytes |
| AsyncOutput.AsyncBufferedOutputStream.WriteByte | ServerAPI/src/main/java/com/github/intellectualsites/kvantum/api/io/AsyncBufferedOutputStream.java:88-94 | a full buffer is sealed first, a recorded flusher error is re-raised, otherwise the byte is appended to the written bytes |
| AsyncOutput.AsyncBufferedOutputStream.CopyIn | ServerAPI/src/main/java/com/github/intellectualsites/kvantum/api/io/AsyncBufferedOutputStream.java:126 | the slice is copied after the buffered bytes, which stay as they were |
| AsyncOutput.AsyncBufferedOutputStream.Write | ServerAPI/src/main/java/com/github/intellectualsites/kvantum/api/io/AsyncBufferedOutputStream.java:111-130 | a range outside the array is rejected with nothing changed; a recorded error stops the write; otherwise exactly `b[off..off+len]` is appended, in order |
| AsyncOutput.AsyncBufferedOutputStream.WriteStep | ServerAPI/src/main/java/com/github/intellectualsites/kvantum/api/io/AsyncBufferedOutputStream.java:119-129 | one loop turn copies between one and `remaining` bytes, never more than the free space, and appends exactly them |
| AsyncOutput.AsyncBufferedOutputStream.WriteAll | ServerAPI/src/main/java/com/github/intellectualsites/kvantum/api/io/AsyncBufferedOutputStream.java:96-100 | the whole array is appended, or the recorded error is raised |
| AsyncOutput.AsyncBufferedOutputStream.DeliverHead | ServerAPI/src/main/java/com/github/intellectualsites/kvantum/api/io/AsyncBufferedOutputStream.java:210-221 | the head chunk reaches the underlying stream in queue order, or the failure is recorded and the chunk kept for accounting |
| AsyncOutput.AsyncBufferedOutputStream.FlushStep | ServerAPI/src/main/java/com/github/intellectualsites/kvantum/api/io/AsyncBufferedOutputStream.java:202-223 | a flusher turn delivers at most the head chunk, stops for good after a failure or close, and loses no byte |
| AsyncOutput.AsyncBufferedOutputStream.Close | ServerAPI/src/main/java/com/github/intellectualsites/kvantum/api/io/AsyncBufferedOutputStream.java:163-184 | a recorded error is thrown before anything is closed, with the queue, the sink and the lost chunks unchanged; otherwise the buffer is sealed and the flusher stopped; a write it had in flight either delivers the head chunk (no error) or fails and that failure is thrown; the underlying stream is closed |
| AsyncOutput.AsyncBufferedOutputStream.FlushAndDrain | ServerAPI/src/main/java/com/github/intellectualsites/kvantum/api/io/AsyncBufferedOutputStream.java:138-142 | after a flush and flusher turns that all succeed, the underlying stream holds every byte written, in order, and the queue is empty |
| AsyncOutput.ConcatSnoc | ServerAPI/src/main/java/com/github/intellectualsites/kvantum/api/io/AsyncBufferedOutputStream.java:208-215 | delivering one more chunk appends exactly its bytes to what the underlying stream received |
| ViewPattern.CompileParts | ServerAPI/src/test/java/com/github/intellectualsites/iserver/api/matching/ViewPatternTest.java:27 | every piece of the template becomes one segment, in order |
| ViewPattern.Compile | ServerAPI/src/test/java/com/github/intellectualsites/iserver/api/matching/ViewPatternTest.java:27 | the template has one segment per `/`-separated piece |
| ViewPattern.Bind | ServerAPI/src/test/java/com/github/intellectualsites/iserver/api/matching/ViewPatternTest.java:28-31 | a capture adds exactly the binding `n := v` to the match of the rest (overriding a later capture of the same name), and fails exactly when the rest fails |
| ViewPattern.MatchSegments | ServerAPI/src/test/java/com/github/intellectualsites/iserver/api/matching/ViewPatternTest.java:28-64 | the matcher behind `matches`: a match finds every literal of the template at its own position of the path; `LongerPathNeverMatches`, `ShorterPathNeverMatches`, `MatchBindings`, `RequiredBinding` and `TrailingOptional` state its bounds and bindings |
| ViewPattern.Matches | ServerAPI/src/test/java/com/github/intellectualsites/iserver/api/matching/ViewPatternTest.java:28-64 | `matches` on the template and path texts: a match finds every literal piece of the template at its own position of the split path; the lemmas on `MatchSegments` give its bounds and bindings |
| ViewPattern.LongerPathNeverMatches | ServerAPI/src/test/java/com/github/intellectualsites/iserver/api/matching/ViewPatternTest.java:33 | a path with more segments than the template never matches |
| ViewPattern.ShorterPathNeverMatches | ServerAPI/src/test/java/com/github/intellectualsites/iserver/api/matching/ViewPatternTest.java:63 | a path with fewer segments than the template's literals and required captures never matches |
| ViewPattern.MatchBindings | ServerAPI/src/test/java/com/github/intellectualsites/iserver/api/matching/ViewPatternTest.java:28-31 | a match is never longer than the template and binds only capture names, every required capture and every defaulted optional capture |
| ViewPattern.RequiredBinding | ServerAPI/src/test/java/com/github/intellectualsites/iserver/api/matching/ViewPatternTest.java:49-52 | a required capture whose name no earlier capture reuses is bound to the path segment at its own position |
| ViewPattern.TrailingOptional | ServerAPI/src/test/java/com/github/intellectualsites/iserver/api/matching/ViewPatternTest.java:35-44 | an optional capture with a default takes the default when its segment is absent and the segment when present |
| ViewPattern.ParseLiteral | ServerAPI/src/test/java/com/github/intellectualsites/iserver/api/matching/ViewPatternTest.java:27 | a piece opening with neither `<` nor `[` is a literal |
| ViewPattern.ParseRequired | ServerAPI/src/test/java/com/github/intellectualsites/iserver/api/matching/ViewPatternTest.java:27 | `<name>` is a required capture of that name |
| ViewPattern.ParseOptional | ServerAPI/src/test/java/com/github/intellectualsites/iserver/api/matching/ViewPatternTest.java:48 | `[name]` is an optional capture without default |
| ViewPattern.ParseOptionalDefault | ServerAPI/src/test/java/com/github/intellectualsites/iserver/api/matching/ViewPatternTest.java:35 | `[name=default]` is an optional capture with that default |
| ViewPattern.CompileRequired | ServerAPI/src/test/java/com/github/intellectualsites/iserver/api/matching/ViewPatternTest.java:27 | `user/<username>` compiles to a literal and a required capture |
| ViewPattern.RequiredCaptureTest | ServerAPI/src/test/java/com/github/intellectualsites/iserver/api/matching/ViewPatternTest.java:27-31 | `user/<username>` binds `username` to the segment after `user` |
| ViewPattern.RequiredCaptureRejects | ServerAPI/src/test/java/com/github/intellectualsites/iserver/api/matching/ViewPatternTest.java:33 | `user/<username>` refuses a path with one extra segment |
| ViewPattern.CompileDefault | ServerAPI/src/test/java/com/github/intellectualsites/iserver/api/matching/ViewPatternTest.java:35 | `news/[page=0]` compiles to a literal and an optional capture with default |
| ViewPattern.DefaultCaptureTest | ServerAPI/src/test/java/com/github/intellectualsites/iserver/api/matching/ViewPatternTest.java:35-44 | `news/[page=0]` binds `page` to `0` on `news` and to the segment on `news/foo` |
| ViewPattern.DefaultCaptureRejects | ServerAPI/src/test/java/com/github/intellectualsites/iserver/api/matching/ViewPatternTest.java:46 | `news/[page=0]` refuses `news/foo/bar` |
| ViewPattern.CompileMixed | ServerAPI/src/test/java/com/github/intellectualsites/iserver/api/matching/ViewPatternTest.java:48 | `user/<username>/posts/[page]` compiles to literal, required, literal, optional |
| ViewPattern.MixedCaptureTest | ServerAPI/src/test/java/com/github/intellectualsites/iserver/api/matching/ViewPatternTest.java:48-54 | without the last segment only `username` is bound and `page` is absent |
| ViewPattern.MixedCaptureOptional | ServerAPI/src/test/java/com/github/intellectualsites/iserver/api/matching/ViewPatternTest.java:56-61 | with the last segment both `username` and `page` are bound to their segments |
| ViewPattern.MixedCaptureMissingRequired | ServerAPI/src/test/java/com/github/intellectualsites/iserver/api/matching/ViewPatternTest.java:63 | `user/` does not match: the required capture has no segment |
| ViewPattern.MixedCaptureTooLong | ServerAPI/src/test/java/com/github/intellectualsites/iserver/api/matching/ViewPatternTest.java:64 | a path of five segments does not match |
| RequestCompiler.Span | ServerAPI/src/main/java/xyz/kvantum/server/api/request/RequestCompiler.java:46 | a greedy character-class run: maximal, and every taken character is in the class |
| RequestCompiler.SpanOf | ServerAPI/src/main/java/xyz/kvantum/server/api/request/RequestCompiler.java:43 | a greedy run stops exactly at the first character outside its class |
| RequestCompiler.HeaderShapeText | ServerAPI/src/main/java/xyz/kvantum/server/api/request/RequestCompiler.java:46 | the parts of a header-shaped line spell the line |
| RequestCompiler.ParseValue | ServerAPI/src/main/java/xyz/kvantum/server/api/request/RequestCompiler.java:46 | `\s*(?<value>.*$)` scanned: any reading it returns has the value shape |
| RequestCompiler.ParseValueComplete | ServerAPI/src/main/java/xyz/kvantum/server/api/request/RequestCompiler.java:46 | every value-shaped text is read back into exactly its parts |
| RequestCompiler.ParseSeparator | ServerAPI/src/main/java/xyz/kvantum/server/api/request/RequestCompiler.java:46 | `\s*:` then the value: any reading has the separator shape |
| RequestCompiler.ParseSeparatorComplete | ServerAPI/src/main/java/xyz/kvantum/server/api/request/RequestCompiler.java:46 | every separator-shaped text is read back into exactly its parts |
| RequestCompiler.ParseHeaderParts | ServerAPI/src/main/java/xyz/kvantum/server/api/request/RequestCompiler.java:46 | the header scan returns only readings of the header pattern |
| RequestCompiler.ParseHeaderComplete | ServerAPI/src/main/java/xyz/kvantum/server/api/request/RequestCompiler.java:46 | every line of the header shape is scanned into exactly its parts |
| RequestCompiler.HeaderShapeUnique | ServerAPI/src/main/java/xyz/kvantum/server/api/request/RequestCompiler.java:46 | a header line has one reading only |
| RequestCompiler.CompileHeader | ServerAPI/src/main/java/xyz/kvantum/server/api/request/RequestCompiler.java:48-57 | empty exactly when the line does not match; otherwise the lower-cased key and the value group |
| RequestCompiler.CompileHeaderOfRendered | ServerAPI/src/main/java/xyz/kvantum/server/api/request/RequestCompiler.java:48-57 | `Key: value` with a valid key and a value free of line breaks and leading spaces reads back as the lower-cased key and the value |
| RequestCompiler.CompileHeaderKeyLowerCase | ServerAPI/src/main/java/xyz/kvantum/server/api/request/RequestCompiler.java:55 | keys come out lower case |
| RequestCompiler.ParseProtocol | ServerAPI/src/main/java/xyz/kvantum/server/api/request/RequestCompiler.java:44 | `type/version` scanned: only well-formed protocols, spelling the input |
| RequestCompiler.ParseOptionalProtocol | ServerAPI/src/main/java/xyz/kvantum/server/api/request/RequestCompiler.java:44 | the optional protocol group: absent on empty text, otherwise a well-formed protocol spelling it |
| RequestCompiler.ParseAfterVerb | ServerAPI/src/main/java/xyz/kvantum/server/api/request/RequestCompiler.java:43-44 | the resource of resource characters, one space and the optional protocol, spelling the input |
| RequestCompiler.ParseQuery | ServerAPI/src/main/java/xyz/kvantum/server/api/request/RequestCompiler.java:42-45 | the request-line scan returns only readings of the query pattern |
| RequestCompiler.ParseProtocolComplete | ServerAPI/src/main/java/xyz/kvantum/server/api/request/RequestCompiler.java:44 | every well-formed protocol reads back as itself |
| RequestCompiler.ParseAfterVerbComplete | ServerAPI/src/main/java/xyz/kvantum/server/api/request/RequestCompiler.java:43-44 | every resource and protocol of the pattern read back as themselves |
| RequestCompiler.ParseQueryComplete | ServerAPI/src/main/java/xyz/kvantum/server/api/request/RequestCompiler.java:42-45 | every line of the query shape is scanned into exactly its groups |
| RequestCompiler.QueryShapeUnique | ServerAPI/src/main/java/xyz/kvantum/server/api/request/RequestCompiler.java:42-45 | a request line has one reading only |
| RequestCompiler.ParseQueryOfRendered | ServerAPI/src/main/java/xyz/kvantum/server/api/request/RequestCompiler.java:42-45 | `GET /index.html HTTP/1.1` style lines give back method, resource and protocol |
| RequestCompiler.Request.constructor | ServerAPI/src/main/java/xyz/kvantum/server/api/request/RequestCompiler.java:59 | a request whose query is not yet set |
| RequestCompiler.CompileQuery | ServerAPI/src/main/java/xyz/kvantum/server/api/request/RequestCompiler.java:59-78 | a non-matching line and an unknown method are errors leaving the request alone; otherwise the query becomes the method and the resource group |
| ImplCache.CacheManager.constructor | Implementation/src/main/java/xyz/kvantum/server/implementation/CacheManager.java:46-56 | three empty caches keyed by path text and handler text |
| ImplCache.CacheManager.GetCachedInclude | Implementation/src/main/java/xyz/kvantum/server/implementation/CacheManager.java:58-60 | the stored include document, None exactly when none is stored |
| ImplCache.CacheManager.GetCachedFile | Implementation/src/main/java/xyz/kvantum/server/implementation/CacheManager.java:62-64 | looked up by the path's text, None exactly when absent |
| ImplCache.CacheManager.GetCache | Implementation/src/main/java/xyz/kvantum/server/implementation/CacheManager.java:86-88 | the stored body under the handler's text, None exactly when absent |
| ImplCache.CacheManager.HasCache | Implementation/src/main/java/xyz/kvantum/server/implementation/CacheManager.java:78-80 | true exactly when `getCache` finds a body |
| ImplCache.CacheManager.SetCachedInclude | Implementation/src/main/java/xyz/kvantum/server/implementation/CacheManager.java:70-72 | the next lookup of the group gives the document; other groups unchanged |
| ImplCache.CacheManager.SetCachedFile | Implementation/src/main/java/xyz/kvantum/server/implementation/CacheManager.java:66-68 | every path printing alike now finds the content; other paths unchanged |
| ImplCache.CacheManager.RemoveFileCache | Implementation/src/main/java/xyz/kvantum/server/implementation/CacheManager.java:74-76 | the path's entry is gone; other paths unchanged |
| ImplCache.CacheManager.SetCache | Implementation/src/main/java/xyz/kvantum/server/implementation/CacheManager.java:82-84 | every handler printing alike now finds the body; other handlers unchanged |
| ImplCache.CacheManager.Expire | Implementation/src/main/java/xyz/kvantum/server/implementation/CacheManager.java:48-55 | eviction only removes entries, never adds or alters one |
| ApiCache.NotEmpty | ServerAPI/src/main/java/com/github/intellectualsites/iserver/api/cache/CacheManager.java:92 | `Assert.notEmpty` passes exactly on a present, non-empty text |
| ApiCache.CacheManager.constructor | ServerAPI/src/main/java/com/github/intellectualsites/iserver/api/cache/CacheManager.java:47-59 | five empty caches |
| ApiCache.CacheManager.GetCachedInclude | ServerAPI/src/main/java/com/github/intellectualsites/iserver/api/cache/CacheManager.java:67-72 | a null group fails the check; otherwise the stored document or nothing |
| ApiCache.CacheManager.GetCachedAccount | ServerAPI/src/main/java/com/github/intellectualsites/iserver/api/cache/CacheManager.java:74-77 | the account cached under the id, None exactly when absent |
| ApiCache.CacheManager.GetCachedId | ServerAPI/src/main/java/com/github/intellectualsites/iserver/api/cache/CacheManager.java:79-82 | the id cached under the user name, None exactly when absent |
| ApiCache.CacheManager.GetCachedFile | ServerAPI/src/main/java/com/github/intellectualsites/iserver/api/cache/CacheManager.java:90-105 | a null or empty name fails; with caching off the answer is empty; otherwise the stored content |
| ApiCache.CacheManager.GetCache | ServerAPI/src/main/java/com/github/intellectualsites/iserver/api/cache/CacheManager.java:162-172 | a null handler fails; otherwise the body stored under its text |
| ApiCache.CacheManager.HasCache | ServerAPI/src/main/java/com/github/intellectualsites/iserver/api/cache/CacheManager.java:134-139 | fails exactly when `getCache` does; otherwise true exactly when a body is found |
| ApiCache.CacheManager.SetCachedAccount | ServerAPI/src/main/java/com/github/intellectualsites/iserver/api/cache/CacheManager.java:84-88 | both account caches updated so the account and its id read back |
| ApiCache.CacheManager.SetCachedFile | ServerAPI/src/main/java/com/github/intellectualsites/iserver/api/cache/CacheManager.java:107-113 | invalid arguments fail with nothing stored; otherwise the content reads back with caching on |
| ApiCache.CacheManager.SetCachedInclude | ServerAPI/src/main/java/com/github/intellectualsites/iserver/api/cache/CacheManager.java:121-126 | null arguments fail with nothing stored; otherwise the document reads back |
| ApiCache.CacheManager.SetCache | ServerAPI/src/main/java/com/github/intellectualsites/iserver/api/cache/CacheManager.java:148-153 | null arguments fail with nothing stored; otherwise the body reads back under the handler |
| ApiCache.CacheManager.Expire | ServerAPI/src/main/java/com/github/intellectualsites/iserver/api/cache/CacheManager.java:41-58 | eviction only removes entries from the five caches |
| Responses.Header.constructor | src/main/java/com/intellectualsites/web/object/Response.java:48 | a header with the given status and no fields or cookies |
| Responses.Header.Set | src/main/java/com/intellectualsites/web/object/Response.java:48-53 | the named field takes the value; other fields and cookies are unchanged |
| Responses.Header.SetCookie | src/main/java/com/intellectualsites/web/core/Worker.java:146 | the cookie takes the value; fields are unchanged |
| Responses.DefaultFields | src/main/java/com/intellectualsites/web/object/Response.java:48-53 | exactly the five default fields, HTML content type, status OK and the clock's date |
| Responses.Response.constructor | src/main/java/com/intellectualsites/web/object/Response.java:46-60 | status OK, the default fields, no cookies, empty text and bytes, bytes mode, the given parent (null for the no-argument form) |
| Responses.Response.SetBytes | src/main/java/com/intellectualsites/web/object/Response.java:67-70 | the bytes are what is sent and the response is no longer text |
| Responses.Response.SetContent | src/main/java/com/intellectualsites/web/object/Response.java:89-93 | the text is what is sent and the response is text; returns itself |
| Responses.Response.SetHeader | src/main/java/com/intellectualsites/web/object/Response.java:100-102 | the header is replaced |
| Responses.Response.SetParent | src/main/java/com/intellectualsites/web/object/Response.java:138-140 | the parent is replaced |
| Responses.Response.HasParent | src/main/java/com/intellectualsites/web/object/Response.java:142-144 | true exactly when a parent is set |
| Extensions.Ordinal | FileSystem/src/main/java/xyz/kvantum/files/Extension.java:22-33 | each constant's position in declaration order, the inverse of `values()` indexing |
| Extensions.OrdinalOfValue | FileSystem/src/main/java/xyz/kvantum/files/Extension.java:49 | indexing `values()` and taking the ordinal are inverse |
| Extensions.StripDot | FileSystem/src/main/java/xyz/kvantum/files/Extension.java:44-48 | exactly one leading dot is removed, and only when present |
| Extensions.AnyAlias | FileSystem/src/main/java/xyz/kvantum/files/Extension.java:51-57 | true exactly when some alias equals the name ignoring case |
| Extensions.MatchesAlias | FileSystem/src/main/java/xyz/kvantum/files/Extension.java:67-82 | `matches` holds exactly when some alias equals the dot-stripped name ignoring case |
| Extensions.ExtensionOf | FileSystem/src/main/java/xyz/kvantum/files/Extension.java:42-60 | the first constant in declaration order that matches; empty exactly when none does |
| Extensions.EqualsAnyAlias | FileSystem/src/main/java/xyz/kvantum/files/Extension.java:51-57 | the alias loop answers whether some alias equals the name ignoring case |
| Extensions.IsMatch | FileSystem/src/main/java/xyz/kvantum/files/Extension.java:67-82 | `matches(s)` strips one dot and compares against every alias |
| Extensions.GetExtension | FileSystem/src/main/java/xyz/kvantum/files/Extension.java:42-60 | the scan over `values()` returns the first matching constant, empty when none matches |
| Extensions.ExtensionOfFirst | FileSystem/src/main/java/xyz/kvantum/files/Extension.java:49-58 | a matching constant with no matching constant before it is the lookup's answer |
| Extensions.ExtensionOfNone | FileSystem/src/main/java/xyz/kvantum/files/Extension.java:59 | the lookup is empty exactly when no constant matches |
| Extensions.AliasesLowerCase | FileSystem/src/main/java/xyz/kvantum/files/Extension.java:24-33 | every alias in the table is written in lower case |
| Extensions.AliasesDisjoint | FileSystem/src/main/java/xyz/kvantum/files/Extension.java:24-33 | no two constants share an alias ignoring case |
| Extensions.ExtensionOfUnique | FileSystem/src/main/java/xyz/kvantum/files/Extension.java:42-82 | the lookup answers a constant exactly when that constant matches: a name matches at most one |
| Extensions.AliasNoDot | FileSystem/src/main/java/xyz/kvantum/files/Extension.java:24-33 | no alias is empty or starts with a dot |
| Extensions.AliasSpellingNoDot | FileSystem/src/main/java/xyz/kvantum/files/Extension.java:44-48 | a name spelling an alias has no leading dot to strip |
| Extensions.AliasSpellingMatches | FileSystem/src/main/java/xyz/kvantum/files/Extension.java:67-82 | a name spelling an alias in any case matches its constant with or without a leading dot |
| Extensions.ExtensionOfAlias | FileSystem/src/main/java/xyz/kvantum/files/Extension.java:42-60 | every alias, in any case and with or without a leading dot, finds its own constant |
| Extensions.ToLowerOfLower | FileSystem/src/main/java/xyz/kvantum/files/Extension.java:53 | a text without upper-case letters is its own lower case |
| Accounts.Session.constructor | ServerAPI/src/main/java/com/github/intellectualsites/kvantum/api/account/IAccountManager.java:104-111 | a session without attributes |
| Accounts.Session.Set | ServerAPI/src/main/java/com/github/intellectualsites/kvantum/api/account/IAccountManager.java:120 | a value is stored under the key; null removes the key; other keys are unchanged |
| Accounts.AccountOfSession | ServerAPI/src/main/java/com/github/intellectualsites/kvantum/api/account/IAccountManager.java:104-111 | empty when the session holds no account id; otherwise the account looked up by the stored id |
| Accounts.BindAccount | ServerAPI/src/main/java/com/github/intellectualsites/kvantum/api/account/IAccountManager.java:118-121 | the session names the account's id, so `getAccount(session)` finds that account |
| Accounts.UnbindAccount | ServerAPI/src/main/java/com/github/intellectualsites/kvantum/api/account/IAccountManager.java:127-130 | the session names no account, so `getAccount(session)` is empty |
| Accounts.SearchForAccount | ServerAPI/src/main/java/com/github/intellectualsites/kvantum/api/account/IAccountManager.java:190-214 | the id lookup first (unless the id is -1), then the user name when not null, empty or "null"; empty exactly when both miss |
| Accounts.GetResults | ServerAPI/src/main/java/com/github/intellectualsites/kvantum/api/account/IAccountManager.java:216-221 | at most one account, exactly the search result |
| Accounts.AccountManager.constructor | ServerAPI/src/main/java/com/github/intellectualsites/kvantum/api/account/IAccountManager.java:47 | an empty role map and account store |
| Accounts.AccountManager.RegisterAccountRole | ServerAPI/src/main/java/com/github/intellectualsites/kvantum/api/account/IAccountManager.java:227-230 | the role is stored under its identifier, replacing an earlier one, and found again by it |
| Accounts.AccountManager.GetAccountRole | ServerAPI/src/main/java/com/github/intellectualsites/kvantum/api/account/IAccountManager.java:246-253 | the role registered under the identifier, whose identifier it is; empty exactly when none is |
| Accounts.AccountManager.RegisteredAccountRoles | ServerAPI/src/main/java/com/github/intellectualsites/kvantum/api/account/IAccountManager.java:236-239 | every registered role, each found again by its identifier |
| Accounts.AccountManager.CheckAdmin | ServerAPI/src/main/java/com/github/intellectualsites/kvantum/api/account/IAccountManager.java:161-181 | afterwards an administrator role is registered; an existing one is kept; a missing `admin` account is created when creation succeeds, with admin data and role |
| SimpleHandlers.IdentifierCounter.constructor | src/main/java/com/intellectualsites/web/views/requesthandler/SimpleRequestHandler.java:18 | the shared counter starts at 0 |
| SimpleHandlers.IdentifierCounter.GetAndIncrement | src/main/java/com/intellectualsites/web/views/requesthandler/SimpleRequestHandler.java:24 | returns the current value and advances the counter by one |
| SimpleHandlers.InternalName | src/main/java/com/intellectualsites/web/views/requesthandler/SimpleRequestHandler.java:24 | the name is the fixed prefix followed by the drawn number in decimal |
| SimpleHandlers.InternalNameInjective | src/main/java/com/intellectualsites/web/views/requesthandler/SimpleRequestHandler.java:24 | different numbers give different internal names |
| SimpleHandlers.SimpleRequestHandler.constructor | src/main/java/com/intellectualsites/web/views/requesthandler/SimpleRequestHandler.java:15-26 | draws the next number for its name and compiles nothing yet |
| SimpleHandlers.SimpleRequestHandler.GetPattern | src/main/java/com/intellectualsites/web/views/requesthandler/SimpleRequestHandler.java:28-33 | compiles on first use and returns the kept compilation of the pattern afterwards |
| SimpleHandlers.SimpleRequestHandler.Matches | src/main/java/com/intellectualsites/web/views/requesthandler/SimpleRequestHandler.java:35-39 | whether the whole resource matches the compiled pattern |
| SimpleHandlers.SimpleRequestHandler.Generate | src/main/java/com/intellectualsites/web/views/requesthandler/SimpleRequestHandler.java:41-49 | a null response fails the check; otherwise the same response, whose parent becomes this handler only when it had none |
| SimpleHandlers.SimpleRequestHandler.GetName | src/main/java/com/intellectualsites/web/views/requesthandler/SimpleRequestHandler.java:51-54 | the prefix followed by the handler's drawn number |
| SimpleHandlers.NamesDistinct | src/main/java/com/intellectualsites/web/views/requesthandler/SimpleRequestHandler.java:18-24 | two handlers that drew different numbers report different names |
| NotFound.TrimTrailingSlash | src/main/java/com/intellectualsites/web/views/errors/View404.java:37-38 | one trailing `/` removed when present, the address otherwise |
| NotFound.View404 | src/main/java/com/intellectualsites/web/views/errors/View404.java:32-34 | a 404 error whose message is the prefix followed by the url |
| NotFound.Construct | src/main/java/com/intellectualsites/web/views/errors/View404.java:36-40 | a null url is refused; otherwise the 404 view for the web address without its trailing `/` followed by the url |
| NotFound.ConstructIgnoresTrailingSlash | src/main/java/com/intellectualsites/web/views/errors/View404.java:37-39 | an address configured with or without its trailing `/` gives the same page |
| NotFound.TrimRemovesOneSlash | src/main/java/com/intellectualsites/web/views/errors/View404.java:37-38 | only one `/` is removed |
| StaticViews.Kept | ServerAPI/src/main/java/com/github/intellectualsites/iserver/api/views/StandardView.java:43-53 | the exclusion filter never adds extensions |
| StaticViews.KeptMembers | ServerAPI/src/main/java/com/github/intellectualsites/iserver/api/views/StandardView.java:43-53 | an extension is kept exactly when it was listed and no excluded name matches it |
| StaticViews.KeptNothing | ServerAPI/src/main/java/com/github/intellectualsites/iserver/api/views/StandardView.java:43 | without exclusions the list is unchanged |
| StaticViews.MatchingExtensions | ServerAPI/src/main/java/com/github/intellectualsites/iserver/api/views/StandardView.java:49-50 | exactly the listed extensions matching the name |
| StaticViews.ExcludeExtensions | ServerAPI/src/main/java/com/github/intellectualsites/iserver/api/views/StandardView.java:45-52 | the collect-then-`removeAll` loop keeps exactly the unmatched extensions, in order |
| StaticViews.StandardExtensions | ServerAPI/src/main/java/com/github/intellectualsites/iserver/api/views/StandardView.java:39-54 | all extensions without the option; the filtered list with a list option; a cast error otherwise |
| StaticViews.StandardIsApplicable | ServerAPI/src/main/java/com/github/intellectualsites/iserver/api/views/StandardView.java:56-60 | standard responses are never cached |
| StaticViews.Disposition | ServerAPI/src/main/java/com/github/intellectualsites/iserver/api/views/StandardView.java:77-78 | the attachment header names the file and its extension between quotes |
| StaticViews.LengthText | ServerAPI/src/main/java/com/github/intellectualsites/iserver/api/views/StandardView.java:80 | an absent length prints as `null` |
| StaticViews.LengthTextParses | ServerAPI/src/main/java/com/github/intellectualsites/iserver/api/views/StandardView.java:80 | a present 32-bit length reads back through `Integer.parseInt` |
| StaticViews.AttachmentFields | ServerAPI/src/main/java/com/github/intellectualsites/iserver/api/views/StandardView.java:77-80 | the three attachment fields are set and every other field kept |
| StaticViews.SetAttachmentHeaders | ServerAPI/src/main/java/com/github/intellectualsites/iserver/api/views/StandardView.java:77-80 | the header gets exactly the attachment fields |
| StaticViews.StandardHandle | ServerAPI/src/main/java/com/github/intellectualsites/iserver/api/views/StandardView.java:62-91 | PDF, TXT and ZIP are sent as attachments, LESS text replaced by its compiled form, any other extension left alone |
| StaticViews.DownloadViewSettings | ServerAPI/src/main/java/com/github/intellectualsites/iserver/api/views/DownloadView.java:38-42 | the `download` view over `/assets/downloads` for the downloadable extensions |
| StaticViews.DownloadHandle | ServerAPI/src/main/java/com/github/intellectualsites/iserver/api/views/DownloadView.java:44-55 | the three attachment headers and nothing else |
| StaticViews.JSViewSettings | ServerAPI/src/main/java/com/github/intellectualsites/kvantum/api/views/JSView.java:37-43 | the `javascript` view over `/assets/js` with `extension = js` added to the options and the rest kept |
| StaticViews.JSIsApplicable | ServerAPI/src/main/java/com/github/intellectualsites/kvantum/api/views/JSView.java:45-50 | the `cacheApplicable` option when it is a boolean, true when absent, a cast error otherwise |
| StaticViews.JSSettingsKeepApplicability | ServerAPI/src/main/java/com/github/intellectualsites/kvantum/api/views/JSView.java:41-49 | the constructor's added option does not change cacheability |
| JavaScriptView.Request.constructor | src/main/java/com/plotsquared/iserver/views/JSView.java:46-56 | a request with its variables and no meta |
| JavaScriptView.Request.AddMeta | src/main/java/com/plotsquared/iserver/views/JSView.java:54 | the meta key takes the value; other keys kept |
| JavaScriptView.NormaliseJs | src/main/java/com/plotsquared/iserver/views/JSView.java:52-53 | the name ends with `.js`, appended only when missing |
| JavaScriptView.NormaliseJsIdempotent | src/main/java/com/plotsquared/iserver/views/JSView.java:52-53 | normalising twice is normalising once |
| JavaScriptView.NormaliseJsKeepsName | src/main/java/com/plotsquared/iserver/views/JSView.java:52-53 | normalising only appends, at most three characters |
| JavaScriptView.JSView.constructor | src/main/java/com/plotsquared/iserver/views/JSView.java:39-44 | the `javascript` view over `/assets/js` serving `{2}.js` |
| JavaScriptView.JSView.Passes | src/main/java/com/plotsquared/iserver/views/JSView.java:46-56 | records the normalised name as `js_file` and answers whether that file exists; fails without the `file` variable |
| JavaScriptView.JSView.Generate | src/main/java/com/plotsquared/iserver/views/JSView.java:59-67 | a new text response of this view, JavaScript-typed, holding the named file's document; fails without the meta |
| JavaScriptView.JSView.IsApplicable | src/main/java/com/plotsquared/iserver/views/JSView.java:69-73 | JavaScript responses are always cacheable |
| JavaScriptView.PassThenGenerate | src/main/java/com/plotsquared/iserver/views/JSView.java:46-67 | `passes` then `generate` serves the normalised name of the requested file |
| Workers.TerminatedSnoc | src/main/java/com/intellectualsites/web/core/Worker.java:84 | one more line appends that line and `|` |
| Workers.HeadLength | src/main/java/com/intellectualsites/web/core/Worker.java:83 | the count of lines before the first empty line, or all lines |
| Workers.ReadHead | src/main/java/com/intellectualsites/web/core/Worker.java:82-85 | the raw head is every line up to the first empty one, each followed by `|` |
| Workers.TerminatedIsJoin | src/main/java/com/intellectualsites/web/core/Worker.java:84 | the raw head is its lines joined by `|` with an empty last piece |
| Workers.SplitTerminated | src/main/java/com/intellectualsites/web/core/Worker.java:84-86 | splitting the raw head on `|` gives back its lines when none holds `|` |
| Workers.ContentLength | src/main/java/com/intellectualsites/web/core/Worker.java:90 | a missing or empty header yields nothing; otherwise the header text after its first character, parsed |
| Workers.ContentLengthOfRendered | src/main/java/com/intellectualsites/web/core/Worker.java:90 | a rendered `Content-Length: n` reads back as `n` |
| Workers.ReadBody | src/main/java/com/intellectualsites/web/core/Worker.java:89-93 | exactly `cl` reads (none when not positive), each the stream character or U+FFFF past its end |
| Workers.ReadRequest | src/main/java/com/intellectualsites/web/core/Worker.java:77-100 | the head is the lines up to the first empty one, and for POST the body of the parsed length is read from the stream that follows that empty line, U+FFFF standing for each read past its end; a bad length ends the read with an error |
| Workers.ChooseSession | src/main/java/com/intellectualsites/web/core/Worker.java:111-116 | the found session, otherwise the created one |
| Workers.Decide | src/main/java/com/intellectualsites/web/core/Worker.java:118-127 | cache only when enabled and applicable; store only when moreover nothing is stored; generate exactly when not cached or nothing stored |
| Workers.Respond | src/main/java/com/intellectualsites/web/core/Worker.java:118-137 | read-through cache: generate unless a stored body may be used; a generated cacheable body is stored so the next lookup finds it |
| Workers.ApplyCookies | src/main/java/com/intellectualsites/web/core/Worker.java:145-147 | every postponed cookie ends up on the header, overriding earlier values |
| Workers.WithHandlerFactory | src/main/java/com/intellectualsites/web/core/Worker.java:160-164 | the handler's own factory replaces the one of the same lower-cased name |
| Workers.BuildFactories | src/main/java/com/intellectualsites/web/core/Worker.java:156-164 | the factory loop builds the global map by lower-cased name, then adds the handler's factory |
| Workers.FactoriesKeys | src/main/java/com/intellectualsites/web/core/Worker.java:156-159 | keys are lower case, exactly the lower-cased provider names, each holding the last factory of that name |
| Workers.HandlerFactoryWins | src/main/java/com/intellectualsites/web/core/Worker.java:161-164 | the handler's factory wins over every global one of its name |
| Workers.CrushAppend | src/main/java/com/intellectualsites/web/core/Worker.java:167-171 | running two lists of syntax engines one after the other equals running their concatenation |
| Workers.CrushUnmatched | src/main/java/com/intellectualsites/web/core/Worker.java:167-171 | engines that never match leave the text unchanged |
| Workers.ApplySyntaxes | src/main/java/com/intellectualsites/web/core/Worker.java:167-171 | the syntax loop applies each matching engine in list order |
| Workers.OutputBytes | src/main/java/com/intellectualsites/web/core/Worker.java:139-143 | a text body sends its encoded text, a byte body its bytes |
| Workers.Finish | src/main/java/com/intellectualsites/web/core/Worker.java:139-175 | postponed cookies set; byte bodies sent as they are; text bodies encoded after the syntax engines unless the handler ignores syntax |

## Left out

- Sockets, the file system, the clock, logging and verbose or debug output: they are parameters (`lines`, `stream`, `exists_`, `document`, `timestamp`) or are left out.
- Classes that are not part of this model: Header (only its status, fields and cookies are modelled, with symbolic names and constants), ISession, FileExtension, StaticFileView (including the `super.handle` call of StandardView), the request parser, SessionManager, Syntax, ProviderFactory, Assert and HttpMethod. What the core takes from them is a parameter. ViewPattern is modelled from its test alone, as its source is not available.
- Text.ToLower: case folding and `equalsIgnoreCase` cover ASCII letters only; Java also folds other Unicode letters.
- Text.Split: empty pieces are kept, trailing ones included; Java's `String.split` drops trailing empty pieces.
- ImplCache.CacheManager.Expire: Caffeine's expiry after write and size-bound eviction are not modelled by time or size. Any set of entries may be dropped at any moment, which is what `Expire` allows.
- ApiCache.CacheManager.Expire: the same, for the five caches of the server API.
- AsyncOutput.AsyncBufferedOutputStream.FlushStep: the flusher thread is an explicit step the caller takes. Concurrency, interleavings and its busy loop of non-blocking `poll()` calls are not modelled. The constructor's `maxBuffers` argument is unused in Java (the queue is an unbounded `ConcurrentLinkedDeque`) and is not a parameter here.
- AsyncOutput.AsyncBufferedOutputStream.Close: `inFlight` stands for the one write the flusher had started when it was told to stop. As in the code, the chunks still queued are not drained.
- AsyncOutput.AsyncBufferedOutputStream.Write: the bounds check works on unbounded integers. In Java, `off + len` can overflow 32 bits; that wrap-around is not modelled.
- SimpleHandlers.SimpleRequestHandler.Matches: regular expressions are not modelled. `Pattern.compile` and `Matcher.matches` are the parameters `compile` and `fullMatch`.
- StaticViews.StandardHandle: `LessView.getLess` is the parameter `less`. A missing `extension` meta, a `NullPointerException` in Java's `switch`, is not modelled: the extension is a parameter.
- Router: RequestManager's `dump`, which only logs every handler, is left out.
- Router.RequestManager.constructor: the default 404 generator is not built in; the generator is a parameter. The source's default calls the server API's own `View404.construct` (package `com.github.intellectualsites.kvantum.api.views.errors`) on the request's full query text. That class is not part of this model; `NotFound` models the older `com.intellectualsites.web.views.errors.View404`.
- Workers: `run` is modelled as its parts `ReadRequest`, `ChooseSession`, `Respond` and `Finish`. It is not composed into one method, because the handler's matching, generation and side effects come from code that is not part of this model.
- Workers.ContentLength: a string is a sequence of Unicode code points, while Java's `substring(1)` drops one UTF-16 unit. For a header value opening with a character outside the Basic Multilingual Plane, Java keeps the low surrogate and `Integer.parseInt` throws; the model drops the whole character and may parse the rest.
- Workers.ReadBody: the stream is a sequence of Unicode code points, while each `BufferedReader.read()` returns one UTF-16 unit. A body holding characters outside the Basic Multilingual Plane is read as a different text: Java reads `cl` units, the model `cl` characters.
- Workers.ReadRequest: inherits the code-point reading of `ContentLength` and `ReadBody`, so its POST body differs from Java's when the header or the stream holds characters outside the Basic Multilingual Plane.
- Workers.Respond: an entry that expires between `hasCache` and `getCache` (Java then reads null) is not modelled. The decision and the read happen on one state.
- Workers: `Header.apply(output)` and the socket writes are left out; `Finish` returns the bytes that are written.
- Responses: one Response class stands for the response classes of the different packages. Trivial getters (`getBytes`, `getHeader`, `getContent`, `isText`) are field reads.
- Accounts.AccountManager.CheckAdmin: the administrator role's identifier is taken to be the `admin` parameter's. Account creation and BCrypt hashing are the parameter `created`, and `checkPassword` is left out.
- Accounts: the manager's abstract lookups `getAccount(int)` and `getAccount(String)` are the parameters `byId` and `byName`.
- Text.ParseInt: only the ASCII digits `0`-`9` are accepted. Java's `Integer.parseInt` also accepts every other Unicode decimal digit, through `Character.digit`.
- SimpleHandlers.IdentifierCounter.GetAndIncrement: the counter is an unbounded natural number. Java's `AtomicInteger` wraps from 2147483647 to -2147483648, so after 2^32 handlers internal names repeat. `NamesDistinct` holds only for handlers whose numbers differ, which the wrap-around would break past that count.
- Accounts.Session.Set: storing null is taken to remove the key, so `contains` is false afterwards and `UnbindAccount` leaves no account. ISession is not part of this model. If an implementation stored null instead, `getAccount(session)` would cast null to `int` and throw a NullPointerException.
- Accounts.AccountManager: Java's `ROLE_MAP` is one static map shared by every account manager; the model gives each manager its own `roles`.
- ViewPattern.Compile: template validation is not modelled. The template class rejects an empty template and a required capture after an optional one, but here every template compiles.
- AsyncOutput.AsyncBufferedOutputStream.constructor: the model requires a buffer of at least one byte. Java accepts size 0, and then `write(int)` throws ArrayIndexOutOfBoundsException, while `write(b, off, len)` with `len > 0` and no flusher error loops forever, because each turn copies `min(len, 0)` bytes. Neither behaviour is modelled. A negative size, which makes Java throw NegativeArraySizeException, is excluded by the parameter's type `nat`.
