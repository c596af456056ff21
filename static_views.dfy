/**
 * The static-file views of the server API: StandardView (every file extension except the ones an
 * option excludes), DownloadView (files sent as attachments) and the API's JSView (JavaScript
 * files). Their common superclass StaticFileView and the FileExtension enum are not part of this
 * model: a view is reduced to the settings its constructor chooses, an extension to its kind and
 * its `getOption()` text, and `FileExtension.matches` is the parameter `matches`.
 */
module StaticViews {
  import opened Wrappers
  import opened Text
  import opened Responses

  /** The FileExtension constants the views treat specially; every other one is `OtherKind`. */
  datatype ExtensionKind = PDF | TXT | ZIP | LESS | JAVASCRIPT | OtherKind(name: string)

  /** A FileExtension constant: its kind and the text of `getOption()`. */
  datatype FileExtension = FileExtension(kind: ExtensionKind, option: string)

  /** A value of the view's option map. */
  datatype OptionValue = ListValue(items: seq<string>) | BoolValue(flag: bool) | TextValue(text: string)

  /** A cast of an option value to the type the view expects failing. */
  datatype ViewError = ClassCast(key: string)

  /** The settings a static-file view's constructor chooses. */
  datatype ViewSettings = ViewSettings(
    internalName: string,
    extensions: seq<FileExtension>,
    relatedFolderPath: Option<string>,
    options: map<string, OptionValue>,
    defaultFilePattern: Option<string>)

  const ExcludeExtensionsKey: string := "excludeExtensions"

  // ---------------------------------------------------------------- StandardView

  /** Some name of `names` matches the extension. */
  predicate Excluded(e: FileExtension, names: seq<string>, matches: (FileExtension, string) -> bool) {
    exists j :: 0 <= j < |names| && matches(e, names[j])
  }

  /** The extensions, in their order, that match no name of `names`. */
  function Kept(exts: seq<FileExtension>, names: seq<string>, matches: (FileExtension, string) -> bool): (r: seq<FileExtension>)
    ensures |r| <= |exts|
  {
    if exts == [] then []
    else
      var last := exts[|exts| - 1];
      Kept(exts[..|exts| - 1], names, matches) + (if Excluded(last, names, matches) then [] else [last])
  }

  /** An extension is kept exactly when it was listed and no name matches it. */
  lemma {:induction false} KeptMembers(exts: seq<FileExtension>, names: seq<string>,
                                        matches: (FileExtension, string) -> bool, e: FileExtension)
    ensures e in Kept(exts, names, matches) <==> e in exts && !Excluded(e, names, matches)
  {
    if exts != [] {
      var init := exts[..|exts| - 1];
      KeptMembers(init, names, matches, e);
      assert exts == init + [exts[|exts| - 1]];
    }
  }

  /** With nothing excluded, the list is unchanged. */
  lemma {:induction false} KeptNothing(exts: seq<FileExtension>, matches: (FileExtension, string) -> bool)
    ensures Kept(exts, [], matches) == exts
  {
    if exts != [] {
      KeptNothing(exts[..|exts| - 1], matches);
      assert exts == exts[..|exts| - 1] + [exts[|exts| - 1]];
    }
  }

  /** The extensions that match `name`: the stream filter of the constructor's loop. */
  function MatchingExtensions(exts: seq<FileExtension>, name: string, matches: (FileExtension, string) -> bool): (r: seq<FileExtension>)
    ensures forall e :: e in r <==> e in exts && matches(e, name)
  {
    if exts == [] then []
    else (if matches(exts[0], name) then [exts[0]] else []) + MatchingExtensions(exts[1..], name, matches)
  }

  /**
   * The exclusion loop of `new StandardView(filter, options)`: collect every extension matching
   * some listed name into `toRemove`, then `removeAll(toRemove)`.
   */
  method ExcludeExtensions(exts: seq<FileExtension>, names: seq<string>, matches: (FileExtension, string) -> bool)
    returns (kept: seq<FileExtension>)
    ensures kept == Kept(exts, names, matches)
  {
    var toRemove: seq<FileExtension> := [];
    var i := 0;
    while i < |names|
      invariant 0 <= i <= |names|
      invariant forall e :: e in toRemove <==> e in exts && Excluded(e, names[..i], matches)
    {
      toRemove := toRemove + MatchingExtensions(exts, names[i], matches);
      assert forall e :: Excluded(e, names[..i + 1], matches) <==> Excluded(e, names[..i], matches) || matches(e, names[i]) by {
        forall e ensures Excluded(e, names[..i + 1], matches) <==> Excluded(e, names[..i], matches) || matches(e, names[i]) {
          if matches(e, names[i]) {
            assert names[..i + 1][i] == names[i];
          }
          if Excluded(e, names[..i + 1], matches) {
            var j :| 0 <= j < i + 1 && matches(e, names[..i + 1][j]);
            if j < i {
              assert names[..i][j] == names[..i + 1][j];
            }
          }
          if Excluded(e, names[..i], matches) {
            var j :| 0 <= j < i && matches(e, names[..i][j]);
            assert names[..i + 1][j] == names[..i][j];
          }
        }
      }
      i := i + 1;
    }
    assert names[..i] == names;
    kept := [];
    var k := 0;
    while k < |exts|
      invariant 0 <= k <= |exts|
      invariant kept == Kept(exts[..k], names, matches)
    {
      assert exts[..k + 1][..k] == exts[..k];
      if exts[k] !in toRemove {
        kept := kept + [exts[k]];
      }
      k := k + 1;
    }
    assert exts[..k] == exts;
  }

  /**
   * The extension list of `new StandardView(filter, options)`: all FileExtension values, less
   * the excluded ones when the `excludeExtensions` option is set; an option value that is not a
   * list fails the cast.
   */
  method StandardExtensions(all: seq<FileExtension>, options: map<string, OptionValue>,
                            matches: (FileExtension, string) -> bool)
    returns (r: Result<seq<FileExtension>, ViewError>)
    ensures ExcludeExtensionsKey !in options ==> r == Ok(all)
    ensures ExcludeExtensionsKey in options && !options[ExcludeExtensionsKey].ListValue? ==>
      r == Err(ClassCast(ExcludeExtensionsKey))
    ensures ExcludeExtensionsKey in options && options[ExcludeExtensionsKey].ListValue? ==>
      r == Ok(Kept(all, options[ExcludeExtensionsKey].items, matches))
  {
    if ExcludeExtensionsKey !in options {
      return Ok(all);
    }
    match options[ExcludeExtensionsKey]
    case ListValue(names) =>
      var kept := ExcludeExtensions(all, names, matches);
      r := Ok(kept);
    case _ =>
      r := Err(ClassCast(ExcludeExtensionsKey));
  }

  /** StandardView's `isApplicable(r)`: its responses are never cached. */
  function StandardIsApplicable(): (b: bool)
    ensures !b
  {
    false
  }

  /** `String.format("attachment; filename=\"%s.%s\"", name, option)` */
  function Disposition(fileName: string, option: string): (s: string)
    ensures |s| == |"attachment; filename=\""| + |fileName| + |option| + 2
    ensures StartsWith(s, "attachment; filename=\"") && EndsWith(s, "\"")
    ensures s[|"attachment; filename=\""|..|s| - 1] == fileName + "." + option
  {
    "attachment; filename=\"" + fileName + "." + option + "\""
  }

  /** `"" + fileLength` for the boxed `Long` meta value, which prints as `null` when absent. */
  function LengthText(fileLength: Option<int>): (s: string)
    ensures fileLength.None? ==> s == "null"
  {
    match fileLength
    case None => "null"
    case Some(n) => IntToString(n)
  }

  /** A present length that fits an `int` reads back through `Integer.parseInt`. */
  lemma LengthTextParses(n: int)
    requires IntMin <= n <= IntMax
    ensures ParseInt(LengthText(Some(n))) == Some(n)
  {
    ParseIntOfIntToString(n);
  }

  /** The three header fields that send a file as an attachment. */
  function AttachmentFields(fields: map<HeaderName, HeaderValue>, fileName: string, ext: FileExtension,
                            fileLength: Option<int>): (m: map<HeaderName, HeaderValue>)
    ensures m.Keys == fields.Keys + {HeaderContentDisposition, HeaderContentTransferEncoding, HeaderContentLength}
    ensures m[HeaderContentDisposition] == Text(Disposition(fileName, ext.option))
    ensures m[HeaderContentTransferEncoding] == Text("binary")
    ensures m[HeaderContentLength] == Text(LengthText(fileLength))
    ensures forall k :: k in fields && k !in {HeaderContentDisposition, HeaderContentTransferEncoding, HeaderContentLength} ==>
      m[k] == fields[k]
  {
    fields[HeaderContentDisposition := Text(Disposition(fileName, ext.option))]
          [HeaderContentTransferEncoding := Text("binary")]
          [HeaderContentLength := Text(LengthText(fileLength))]
  }

  /** The three `set` calls both views make for a downloadable file. */
  method SetAttachmentHeaders(header: Header, fileName: string, ext: FileExtension, fileLength: Option<int>)
    modifies header`fields
    ensures header.fields == AttachmentFields(old(header.fields), fileName, ext, fileLength)
  {
    header.Set(HeaderContentDisposition, Text(Disposition(fileName, ext.option)));
    header.Set(HeaderContentTransferEncoding, Text("binary"));
    header.Set(HeaderContentLength, Text(LengthText(fileLength)));
  }

  /**
   * StandardView's `handle(r, response)` after `super.handle`: PDF, TXT and ZIP files are sent as
   * attachments; LESS text is replaced by its compiled form (`less` stands for
   * `LessView.getLess`); any other extension changes nothing.
   */
  method StandardHandle(ext: FileExtension, fileName: string, fileLength: Option<int>,
                        response: Response, less: string -> string)
    modifies response.header`fields, response`content, response`isText
    ensures ext.kind in {PDF, TXT, ZIP} ==>
      && response.header.fields == AttachmentFields(old(response.header.fields), fileName, ext, fileLength)
      && response.content == old(response.content) && response.isText == old(response.isText)
    ensures ext.kind == LESS ==>
      && response.content == less(old(response.content)) && response.isText
      && response.header.fields == old(response.header.fields)
    ensures ext.kind !in {PDF, TXT, ZIP, LESS} ==>
      && response.header.fields == old(response.header.fields)
      && response.content == old(response.content) && response.isText == old(response.isText)
  {
    match ext.kind
    case PDF =>
      SetAttachmentHeaders(response.header, fileName, ext, fileLength);
    case TXT =>
      SetAttachmentHeaders(response.header, fileName, ext, fileLength);
    case ZIP =>
      SetAttachmentHeaders(response.header, fileName, ext, fileLength);
    case LESS =>
      var _ := response.SetContent(less(response.content));
    case _ =>
  }

  // ---------------------------------------------------------------- DownloadView

  /** `new DownloadView(filter, options)`: the downloadable extensions, under `/assets/downloads`. */
  function DownloadViewSettings(options: map<string, OptionValue>, downloadable: seq<FileExtension>): (v: ViewSettings)
    ensures v.internalName == "download" && v.extensions == downloadable
    ensures v.relatedFolderPath == Some("/assets/downloads") && v.options == options
  {
    ViewSettings("download", downloadable, Some("/assets/downloads"), options, None)
  }

  /** DownloadView's `handle(r, response)`: the three attachment headers and nothing else. */
  method DownloadHandle(ext: FileExtension, fileName: string, fileLength: Option<int>, response: Response)
    modifies response.header`fields
    ensures response.header.fields == AttachmentFields(old(response.header.fields), fileName, ext, fileLength)
  {
    SetAttachmentHeaders(response.header, fileName, ext, fileLength);
  }

  // ---------------------------------------------------------------- JSView (server API)

  /** `new JSView(filter, options)`: JavaScript only, under `/assets/js`, with `extension = js`. */
  function JSViewSettings(options: map<string, OptionValue>): (v: ViewSettings)
    ensures v.internalName == "javascript" && v.extensions == [FileExtension(JAVASCRIPT, "js")]
    ensures v.relatedFolderPath == Some("/assets/js")
    ensures v.options.Keys == options.Keys + {"extension"} && v.options["extension"] == TextValue("js")
    ensures forall k :: k in options && k != "extension" ==> v.options[k] == options[k]
    ensures v.defaultFilePattern == Some("${file}.js")
  {
    ViewSettings("javascript", [FileExtension(JAVASCRIPT, "js")], Some("/assets/js"),
                 options["extension" := TextValue("js")], Some("${file}.js"))
  }

  /**
   * The API JSView's `isApplicable(r)`: the `cacheApplicable` option when it is set, true when it
   * is not; a value that is not a boolean fails the cast. The request plays no part.
   */
  function JSIsApplicable(options: map<string, OptionValue>): (r: Result<bool, ViewError>)
    ensures "cacheApplicable" !in options ==> r == Ok(true)
    ensures "cacheApplicable" in options && options["cacheApplicable"].BoolValue? ==>
      r == Ok(options["cacheApplicable"].flag)
    ensures r.Err? <==> "cacheApplicable" in options && !options["cacheApplicable"].BoolValue?
  {
    if "cacheApplicable" !in options then Ok(true)
    else match options["cacheApplicable"]
      case BoolValue(b) => Ok(b)
      case _ => Err(ClassCast("cacheApplicable"))
  }

  /** The constructor's `extension` option does not change whether responses are cached. */
  lemma {:induction false} JSSettingsKeepApplicability(options: map<string, OptionValue>)
    ensures JSIsApplicable(JSViewSettings(options).options) == JSIsApplicable(options)
  {
    var o := JSViewSettings(options).options;
    assert "cacheApplicable" in o <==> "cacheApplicable" in options;
    if "cacheApplicable" in options {
      assert o["cacheApplicable"] == options["cacheApplicable"];
    }
  }
}
