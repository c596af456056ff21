/**
 * The implementation's CacheManager: three independent caches (include blocks, files, response
 * bodies), each keyed by a string. Files are keyed by `Path.toString()` and bodies by the
 * handler's `toString()`, so two handlers that print alike share one body entry.
 *
 * A cache is a map that the facade writes and reads; expiry after write and the size bound may
 * drop any entries at any time, which `Expire` stands for.
 */
module ImplCache {
  import opened Wrappers

  /** `CachedResponse`, built from the body it stores. */
  datatype CachedResponse<B> = CachedResponse(body: B)

  class CacheManager<P(!new), H(!new), F, B> {
    /** `Path.toString()` */
    const pathKey: P -> string
    /** `RequestHandler.toString()` */
    const viewKey: H -> string

    var includes: map<string, string>
    var files: map<string, F>
    var bodies: map<string, CachedResponse<B>>

    constructor (pathKey: P -> string, viewKey: H -> string)
      ensures this.pathKey == pathKey && this.viewKey == viewKey
      ensures includes == map[] && files == map[] && bodies == map[]
    {
      this.pathKey := pathKey;
      this.viewKey := viewKey;
      includes := map[];
      files := map[];
      bodies := map[];
    }

    /** `getCachedInclude(group)`: the stored document, or None (null) when there is none. */
    function GetCachedInclude(group: string): (r: Option<string>)
      reads this
      ensures r.None? <==> group !in includes
      ensures r.Some? ==> r.value == includes[group]
    {
      if group in includes then Some(includes[group]) else None
    }

    /** `getCachedFile(file)`: looked up by the path's text. */
    function GetCachedFile(file: P): (r: Option<F>)
      reads this
      ensures r.None? <==> pathKey(file) !in files
      ensures r.Some? ==> r.value == files[pathKey(file)]
    {
      var key := pathKey(file);
      if key in files then Some(files[key]) else None
    }

    /** `getCache(view)`: looked up by the handler's text. */
    function GetCache(view: H): (r: Option<CachedResponse<B>>)
      reads this
      ensures r.None? <==> viewKey(view) !in bodies
      ensures r.Some? ==> r.value == bodies[viewKey(view)]
    {
      var key := viewKey(view);
      if key in bodies then Some(bodies[key]) else None
    }

    /** `hasCache(view)`: exactly when `getCache(view)` is not null. */
    function HasCache(view: H): (r: bool)
      reads this
      ensures r <==> GetCache(view).Some?
    {
      viewKey(view) in bodies
    }

    /** `setCachedInclude(group, document)`: the next lookup of `group` gives `document`. */
    method SetCachedInclude(group: string, document: string)
      modifies this`includes
      ensures includes == old(includes)[group := document]
      ensures GetCachedInclude(group) == Some(document)
      ensures forall g :: g != group ==> GetCachedInclude(g) == old(GetCachedInclude(g))
    {
      includes := includes[group := document];
    }

    /** `setCachedFile(file, content)`: every path printing like `file` now finds `content`. */
    method SetCachedFile(file: P, content: F)
      modifies this`files
      ensures files == old(files)[pathKey(file) := content]
      ensures forall p :: pathKey(p) == pathKey(file) ==> GetCachedFile(p) == Some(content)
      ensures forall p :: pathKey(p) != pathKey(file) ==> GetCachedFile(p) == old(GetCachedFile(p))
    {
      files := files[pathKey(file) := content];
    }

    /** `removeFileCache(path)`: the path's entry is gone; other keys and caches are untouched. */
    method RemoveFileCache(path: P)
      modifies this`files
      ensures files == old(files) - {pathKey(path)}
      ensures GetCachedFile(path) == None
      ensures forall p :: pathKey(p) != pathKey(path) ==> GetCachedFile(p) == old(GetCachedFile(p))
    {
      files := files - {pathKey(path)};
    }

    /**
     * `setCache(view, body)`: the body is stored under the handler's text, so it is what every
     * handler printing alike now finds.
     */
    method SetCache(view: H, body: B)
      modifies this`bodies
      ensures bodies == old(bodies)[viewKey(view) := CachedResponse(body)]
      ensures forall v :: viewKey(v) == viewKey(view) ==>
        HasCache(v) && GetCache(v) == Some(CachedResponse(body))
      ensures forall v :: viewKey(v) != viewKey(view) ==> GetCache(v) == old(GetCache(v))
    {
      bodies := bodies[viewKey(view) := CachedResponse(body)];
    }

    /** Expiry and size-bound eviction: any entries of any of the caches may disappear. */
    method Expire(lostIncludes: set<string>, lostFiles: set<string>, lostBodies: set<string>)
      modifies this
      ensures includes == old(includes) - lostIncludes
      ensures files == old(files) - lostFiles
      ensures bodies == old(bodies) - lostBodies
    {
      includes := includes - lostIncludes;
      files := files - lostFiles;
      bodies := bodies - lostBodies;
    }
  }
}
