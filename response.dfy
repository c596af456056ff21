/**
 * Response: the HTTP response a handler produces, made of a header and a body that is either
 * text (`content`) or raw bytes (`bytes`); `isText` says which of the two the server sends.
 *
 * The Header class itself is not part of this model. It is represented by the status, the
 * header fields set through `set` and the cookies set through `setCookie`. The names and values
 * it declares as constants (`Header.HEADER_CONTENT_TYPE`, `Header.STATUS_OK`, ...) are symbolic
 * here, because their text is defined in that class.
 */
module Responses {
  type byte = bv8

  /** The `Header.HEADER_*` field names the modelled code uses. */
  datatype HeaderName =
    | HeaderStatus
    | HeaderContentType
    | HeaderServer
    | HeaderDate
    | HeaderXPoweredBy
    | HeaderContentDisposition
    | HeaderContentTransferEncoding
    | HeaderContentLength

  /** A header value: text built by the caller, or one of the constants of the Header class. */
  datatype HeaderValue =
    | Text(text: string)
    | StatusOk
    | ContentTypeHtml
    | ContentTypeJavascript
    | PoweredBy
    | XPoweredBy

  class Header {
    var status: HeaderValue
    var fields: map<HeaderName, HeaderValue>
    var cookies: map<string, string>

    /** `new Header(status)` */
    constructor (status: HeaderValue)
      ensures this.status == status && fields == map[] && cookies == map[]
    {
      this.status := status;
      fields := map[];
      cookies := map[];
    }

    /** `set(name, value)`: the field now has `value`; no other field and no cookie changes. */
    method Set(name: HeaderName, value: HeaderValue)
      modifies this`fields
      ensures fields == old(fields)[name := value]
    {
      fields := fields[name := value];
    }

    /** `setCookie(name, value)` */
    method SetCookie(name: string, value: string)
      modifies this`cookies
      ensures cookies == old(cookies)[name := value]
    {
      cookies := cookies[name := value];
    }
  }

  /** The fields every new response starts with; the date is the clock's HTTP time stamp. */
  function DefaultFields(timestamp: string): (m: map<HeaderName, HeaderValue>)
    ensures m.Keys == {HeaderContentType, HeaderServer, HeaderDate, HeaderStatus, HeaderXPoweredBy}
    ensures m[HeaderContentType] == ContentTypeHtml && m[HeaderStatus] == StatusOk
    ensures m[HeaderDate] == Text(timestamp)
  {
    map[HeaderContentType := ContentTypeHtml, HeaderServer := PoweredBy, HeaderDate := Text(timestamp),
        HeaderStatus := StatusOk, HeaderXPoweredBy := XPoweredBy]
  }

  class Response {
    var header: Header
    var content: string
    /** The handler that generated the response, if any (Java's null when none). */
    var parent: object?
    var isText: bool
    var bytes: seq<byte>

    /**
     * `new Response(parent)` (and `new Response()`, which passes null): status OK, the default
     * fields, empty text, no bytes, and bytes rather than text until `setContent` is called.
     */
    constructor (parent: object?, timestamp: string)
      ensures this.parent == parent
      ensures fresh(header) && header.status == StatusOk && header.fields == DefaultFields(timestamp)
      ensures header.cookies == map[]
      ensures content == "" && bytes == [] && !isText
    {
      this.parent := parent;
      var h := new Header(StatusOk);
      h.fields := DefaultFields(timestamp);
      header := h;
      content := "";
      bytes := [];
      isText := false;
    }

    /** `setBytes(bytes)`: the response now sends these bytes; the text is kept but not sent. */
    method SetBytes(b: seq<byte>)
      modifies this`bytes, this`isText
      ensures bytes == b && !isText
    {
      bytes := b;
      isText := false;
    }

    /** `setContent(content)`: the response now sends this text; returns the response itself. */
    method SetContent(s: string) returns (r: Response)
      modifies this`content, this`isText
      ensures content == s && isText && r == this
    {
      content := s;
      isText := true;
      r := this;
    }

    /** `setHeader(header)` */
    method SetHeader(h: Header)
      modifies this`header
      ensures header == h
    {
      header := h;
    }

    method SetParent(p: object?)
      modifies this`parent
      ensures parent == p
    {
      parent := p;
    }

    /** `hasParent()`: exactly when the parent is not null. */
    function HasParent(): (r: bool)
      reads this
      ensures r <==> parent != null
    {
      parent != null
    }
  }
}
