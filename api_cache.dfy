/**
 * The server API's CacheManager: five independent caches (include blocks, files, response bodies,
 * accounts by id, account ids by user name). Arguments the manager checks with `Assert` are
 * nullable here (Option); a failed check is an error result and changes nothing. The global
 * `CoreConfig.Cache.enabled` switch is the `enabled` parameter.
 *
 * As in the implementation's manager, expiry after write and the size bound may drop any entries
 * at any time, which `Expire` stands for.
 */
module ApiCache {
  import opened Wrappers

  datatype CachedResponse<B> = CachedResponse(body: B)

  /** What `Assert.notNull` and `Assert.notEmpty` throw. */
  datatype AssertionFailure = NullArgument | EmptyArgument

  /** `Assert.notEmpty`: present and not the empty string. */
  function NotEmpty(s: Option<string>): (r: Option<AssertionFailure>)
    ensures r.None? <==> s.Some? && s.value != ""
  {
    match s
    case None => Some(NullArgument)
    case Some(t) => if t == "" then Some(EmptyArgument) else None
  }

  class CacheManager<H, B, A> {
    /** `RequestHandler.toString()` */
    const viewKey: H -> string
    /** `Account.getId()` and `Account.getUsername()` */
    const accountId: A -> int
    const accountName: A -> string

    var includes: map<string, string>
    var files: map<string, string>
    var bodies: map<string, CachedResponse<B>>
    var accounts: map<int, A>
    var accountIds: map<string, int>

    constructor (viewKey: H -> string, accountId: A -> int, accountName: A -> string)
      ensures this.viewKey == viewKey && this.accountId == accountId && this.accountName == accountName
      ensures includes == map[] && files == map[] && bodies == map[]
      ensures accounts == map[] && accountIds == map[]
    {
      this.viewKey := viewKey;
      this.accountId := accountId;
      this.accountName := accountName;
      includes := map[];
      files := map[];
      bodies := map[];
      accounts := map[];
      accountIds := map[];
    }

    /** `getCachedInclude(group)`: a null group fails the check; otherwise the document or null. */
    function GetCachedInclude(group: Option<string>): (r: Result<Option<string>, AssertionFailure>)
      reads this
      ensures group.None? <==> r == Err(NullArgument)
      ensures group.Some? ==> r.Ok? && (r.value.Some? <==> group.value in includes)
      ensures group.Some? && group.value in includes ==> r == Ok(Some(includes[group.value]))
    {
      match group
      case None => Err(NullArgument)
      case Some(g) => Ok(if g in includes then Some(includes[g]) else None)
    }

    function GetCachedAccount(id: int): (r: Option<A>)
      reads this
      ensures r.Some? <==> id in accounts
      ensures r.Some? ==> r.value == accounts[id]
    {
      if id in accounts then Some(accounts[id]) else None
    }

    function GetCachedId(username: string): (r: Option<int>)
      reads this
      ensures r.Some? <==> username in accountIds
      ensures r.Some? ==> r.value == accountIds[username]
    {
      if username in accountIds then Some(accountIds[username]) else None
    }

    /**
     * `getCachedFile(file)`: a null or empty name fails the check; with caching disabled the
     * answer is empty whatever is stored; otherwise the stored content, if any.
     */
    function GetCachedFile(file: Option<string>, enabled: bool): (r: Result<Option<string>, AssertionFailure>)
      reads this
      ensures r.Err? <==> NotEmpty(file).Some?
      ensures r.Err? ==> r.error == NotEmpty(file).value
      ensures r.Ok? && !enabled ==> r.value == None
      ensures r.Ok? && enabled ==> (r.value.Some? <==> file.value in files)
      ensures r.Ok? && enabled && file.value in files ==> r.value == Some(files[file.value])
    {
      match NotEmpty(file)
      case Some(e) => Err(e)
      case None =>
        if !enabled then Ok(None)
        else Ok(if file.value in files then Some(files[file.value]) else None)
    }

    /** `getCache(view)`: a null handler fails the check; otherwise the body stored under its text. */
    function GetCache(view: Option<H>): (r: Result<Option<CachedResponse<B>>, AssertionFailure>)
      reads this
      ensures view.None? <==> r == Err(NullArgument)
      ensures view.Some? ==> r.Ok? && (r.value.Some? <==> viewKey(view.value) in bodies)
      ensures view.Some? && viewKey(view.value) in bodies ==> r == Ok(Some(bodies[viewKey(view.value)]))
    {
      match view
      case None => Err(NullArgument)
      case Some(v) =>
        var key := viewKey(v);
        Ok(if key in bodies then Some(bodies[key]) else None)
    }

    /** `hasCache(view)`: for a non-null handler, exactly when `getCache(view)` is not null. */
    function HasCache(view: Option<H>): (r: Result<bool, AssertionFailure>)
      reads this
      ensures r.Err? <==> GetCache(view).Err?
      ensures r.Err? ==> r.error == NullArgument
      ensures r.Ok? ==> (r.value <==> GetCache(view).value.Some?)
    {
      match view
      case None => Err(NullArgument)
      case Some(v) => Ok(viewKey(v) in bodies)
    }

    /** `setCachedAccount(account)`: one write to each of the two account caches. */
    method SetCachedAccount(account: A)
      modifies this`accounts, this`accountIds
      ensures accounts == old(accounts)[accountId(account) := account]
      ensures accountIds == old(accountIds)[accountName(account) := accountId(account)]
      ensures GetCachedAccount(accountId(account)) == Some(account)
      ensures GetCachedId(accountName(account)) == Some(accountId(account))
    {
      accounts := accounts[accountId(account) := account];
      accountIds := accountIds[accountName(account) := accountId(account)];
    }

    /**
     * `setCachedFile(file, content)`: a null or empty name, or null content, fails the check and
     * stores nothing; otherwise a lookup of `file` with caching enabled gives `content`.
     */
    method SetCachedFile(file: Option<string>, content: Option<string>) returns (r: Result<(), AssertionFailure>)
      modifies this`files
      ensures NotEmpty(file).Some? ==> r == Err(NotEmpty(file).value) && files == old(files)
      ensures NotEmpty(file).None? && content.None? ==> r == Err(NullArgument) && files == old(files)
      ensures NotEmpty(file).None? && content.Some? ==>
        && r == Ok(())
        && files == old(files)[file.value := content.value]
        && GetCachedFile(file, true) == Ok(Some(content.value))
    {
      var check := NotEmpty(file);
      if check.Some? {
        return Err(check.value);
      }
      if content.None? {
        return Err(NullArgument);
      }
      files := files[file.value := content.value];
      r := Ok(());
    }

    /** `setCachedInclude(group, document)`: both must be non-null; then the document round-trips. */
    method SetCachedInclude(group: Option<string>, document: Option<string>) returns (r: Result<(), AssertionFailure>)
      modifies this`includes
      ensures group.None? || document.None? ==> r == Err(NullArgument) && includes == old(includes)
      ensures group.Some? && document.Some? ==>
        && r == Ok(())
        && includes == old(includes)[group.value := document.value]
        && GetCachedInclude(group) == Ok(Some(document.value))
    {
      if group.None? || document.None? {
        return Err(NullArgument);
      }
      includes := includes[group.value := document.value];
      r := Ok(());
    }

    /** `setCache(view, body)`: both must be non-null; then `getCache(view)` gives the stored body. */
    method SetCache(view: Option<H>, body: Option<B>) returns (r: Result<(), AssertionFailure>)
      modifies this`bodies
      ensures view.None? || body.None? ==> r == Err(NullArgument) && bodies == old(bodies)
      ensures view.Some? && body.Some? ==>
        && r == Ok(())
        && bodies == old(bodies)[viewKey(view.value) := CachedResponse(body.value)]
        && GetCache(view) == Ok(Some(CachedResponse(body.value)))
        && HasCache(view) == Ok(true)
    {
      if view.None? || body.None? {
        return Err(NullArgument);
      }
      bodies := bodies[viewKey(view.value) := CachedResponse(body.value)];
      r := Ok(());
    }

    /** Expiry and size-bound eviction: any entries of any of the five caches may disappear. */
    method Expire(lostIncludes: set<string>, lostFiles: set<string>, lostBodies: set<string>,
                  lostAccounts: set<int>, lostIds: set<string>)
      modifies this
      ensures includes == old(includes) - lostIncludes
      ensures files == old(files) - lostFiles
      ensures bodies == old(bodies) - lostBodies
      ensures accounts == old(accounts) - lostAccounts
      ensures accountIds == old(accountIds) - lostIds
    {
      includes := includes - lostIncludes;
      files := files - lostFiles;
      bodies := bodies - lostBodies;
      accounts := accounts - lostAccounts;
      accountIds := accountIds - lostIds;
    }
  }
}
