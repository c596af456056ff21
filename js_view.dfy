/**
 * The JavaScript view of the plotsquared server: it serves `<folder>/<file>.js`, where `file` is
 * the request variable of that name, completed with `.js` when it lacks the ending. The name is
 * handed from `passes` to `generate` through the request meta `js_file`.
 *
 * The file system is not modelled: whether a file exists and what it contains are the parameters
 * `exists_` and `document`; the clock behind the response's date is `timestamp`.
 */
module JavaScriptView {
  import opened Wrappers
  import opened Text
  import opened Responses

  /** The parts of a request the view reads and writes. */
  class Request {
    var variables: map<string, string>
    var meta: map<string, string>

    constructor (variables: map<string, string>)
      ensures this.variables == variables && meta == map[]
    {
      this.variables := variables;
      meta := map[];
    }

    /** `addMeta(key, value)` */
    method AddMeta(key: string, value: string)
      modifies this`meta
      ensures meta == old(meta)[key := value]
    {
      meta := meta[key := value];
    }
  }

  /** A null value dereferenced: the `file` variable, or the `js_file` meta, is missing. */
  datatype ViewError = MissingFile | MissingMeta

  const JsFileMeta: string := "js_file"

  /** The requested name with `.js` appended unless it already ends with it. */
  function NormaliseJs(file: string): (r: string)
    ensures EndsWith(r, ".js")
    ensures EndsWith(file, ".js") ==> r == file
    ensures !EndsWith(file, ".js") ==> r == file + ".js"
  {
    if EndsWith(file, ".js") then file
    else
      var r := file + ".js";
      assert r[|r| - 3..] == ".js";
      r
  }

  /** Normalising twice is normalising once. */
  lemma NormaliseJsIdempotent(file: string)
    ensures NormaliseJs(NormaliseJs(file)) == NormaliseJs(file)
  {
  }

  /** Normalising only appends: the result starts with the requested name, at most three characters longer. */
  lemma {:induction false} NormaliseJsKeepsName(file: string)
    ensures StartsWith(NormaliseJs(file), file)
    ensures |NormaliseJs(file)| <= |file| + 3
  {
    var r := NormaliseJs(file);
    if !EndsWith(file, ".js") {
      assert r[..|file|] == file;
    }
  }

  class JSView {
    const internalName: string
    const relatedFolderPath: string
    const fileName: string
    const options: map<string, string>

    /** `new JSView(filter, options)`: the `javascript` view over `/assets/js`, files `{2}.js`. */
    constructor (options: map<string, string>)
      ensures internalName == "javascript" && relatedFolderPath == "/assets/js" && fileName == "{2}.js"
      ensures this.options == options
    {
      internalName := "javascript";
      relatedFolderPath := "/assets/js";
      fileName := "{2}.js";
      this.options := options;
    }

    /**
     * `passes(request)`: records the normalised name as `js_file` and answers whether that file
     * exists in the view's folder; a request without the `file` variable fails.
     */
    method Passes(request: Request, exists_: (string, string) -> bool) returns (r: Result<bool, ViewError>)
      modifies request`meta
      ensures "file" !in request.variables ==> r == Err(MissingFile) && request.meta == old(request.meta)
      ensures "file" in request.variables ==>
        var name := NormaliseJs(request.variables["file"]);
        && request.meta == old(request.meta)[JsFileMeta := name]
        && r == Ok(exists_(relatedFolderPath, name))
    {
      if "file" !in request.variables {
        return Err(MissingFile);
      }
      var file := request.variables["file"];
      if !EndsWith(file, ".js") {
        file := file + ".js";
      }
      request.AddMeta(JsFileMeta, file);
      r := Ok(exists_(relatedFolderPath, file));
    }

    /**
     * `generate(request)`: a new text response of this view, typed as JavaScript, holding the
     * document of the file named by `js_file`; without that meta it fails.
     */
    method Generate(request: Request, document: (string, string) -> string, timestamp: string)
      returns (r: Result<Response, ViewError>)
      ensures JsFileMeta !in request.meta ==> r == Err(MissingMeta)
      ensures JsFileMeta in request.meta ==>
        && r.Ok? && fresh(r.value) && fresh(r.value.header)
        && r.value.parent == this
        && r.value.header.fields == DefaultFields(timestamp)[HeaderContentType := ContentTypeJavascript]
        && r.value.isText && r.value.content == document(relatedFolderPath, request.meta[JsFileMeta])
    {
      if JsFileMeta !in request.meta {
        return Err(MissingMeta);
      }
      var file := request.meta[JsFileMeta];
      var response := new Response(this, timestamp);
      response.header.Set(HeaderContentType, ContentTypeJavascript);
      var _ := response.SetContent(document(relatedFolderPath, file));
      r := Ok(response);
    }

    /** `isApplicable(r)`: JavaScript responses are always cacheable. */
    function IsApplicable(): (b: bool)
      ensures b
    {
      true
    }
  }

  /** `passes` followed by `generate` serves the normalised name, whatever was asked for. */
  method PassThenGenerate(view: JSView, request: Request, exists_: (string, string) -> bool,
                          document: (string, string) -> string, timestamp: string)
    returns (served: Result<Response, ViewError>)
    requires "file" in request.variables
    modifies request`meta
    ensures served.Ok? && served.value.isText
    ensures served.value.content == document(view.relatedFolderPath, NormaliseJs(old(request.variables["file"])))
  {
    var _ := view.Passes(request, exists_);
    served := view.Generate(request, document, timestamp);
  }
}
