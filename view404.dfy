/**
 * View404: the "not found" error page. Its message names the missing address: the configured web
 * address, with one trailing `/` removed, followed by the requested url. The configured address
 * (`CoreConfig.webAddress`) is a parameter.
 */
module NotFound {
  import opened Wrappers
  import opened Text

  /** An error view: the status code and the message it shows. */
  datatype ErrorView = ErrorView(code: int, message: string)

  /** Lombok's `@NonNull` check failing on a null url. */
  datatype NotFoundError = NullUrl

  const MessagePrefix: string := "Not Found: "

  /** The address with one trailing `/` removed, when it ends with one. */
  function TrimTrailingSlash(address: string): (r: string)
    ensures EndsWith(address, "/") ==> address == r + "/"
    ensures !EndsWith(address, "/") ==> r == address
  {
    if EndsWith(address, "/") then address[..|address| - 1] else address
  }

  /** `new View404(url)`: a 404 error whose message names the url. */
  function View404(url: string): (v: ErrorView)
    ensures v.code == 404
    ensures StartsWith(v.message, MessagePrefix) && v.message[|MessagePrefix|..] == url
  {
    ErrorView(404, MessagePrefix + url)
  }

  /** `View404.construct(url)`: null is refused; otherwise the view for the full address. */
  function Construct(webAddress: string, url: Option<string>): (r: Result<ErrorView, NotFoundError>)
    ensures url.None? <==> r == Err(NullUrl)
    ensures url.Some? ==> r == Ok(View404(TrimTrailingSlash(webAddress) + url.value))
  {
    match url
    case None => Err(NullUrl)
    case Some(u) => Ok(View404(TrimTrailingSlash(webAddress) + u))
  }

  /**
   * The address may be configured with or without its trailing `/`: both give the same page, and
   * its message is the address without the `/` followed by the url.
   */
  lemma {:induction false} ConstructIgnoresTrailingSlash(base: string, url: string)
    requires !EndsWith(base, "/")
    ensures Construct(base + "/", Some(url)) == Construct(base, Some(url))
    ensures Construct(base, Some(url)).value.message == MessagePrefix + base + url
  {
    var a := base + "/";
    assert EndsWith(a, "/") by {
      assert a[|a| - 1..] == "/";
    }
    assert TrimTrailingSlash(a) == base by {
      assert a[..|a| - 1] == base;
    }
  }

  /** Only one `/` is removed: an address ending in `//` keeps one of them. */
  lemma {:induction false} TrimRemovesOneSlash(base: string)
    ensures TrimTrailingSlash(base + "//") == base + "/"
  {
    var a := base + "//";
    assert a[|a| - 1..] == "/";
    assert a[..|a| - 1] == base + "/";
  }
}
