/**
 * The default methods of IAccountManager: finding the account bound to a session, binding and
 * unbinding, searching by id then by user name, the registry of account roles, and the start-up
 * check that an administrator role and an `admin` account exist.
 *
 * The manager's own lookups (`getAccount(int)`, `getAccount(String)`) are abstract in the source;
 * here they are the parameters `byId` and `byName`, or, for `checkAdmin`, the account store held
 * by the manager. The session is reduced to the attribute under `"__user_id__"`.
 */
module Accounts {
  import opened Wrappers

  /** `SESSION_ACCOUNT_CONSTANT` */
  const SessionAccountKey: string := "__user_id__"

  /** The session attributes; the ISession class is not part of this model. */
  class Session {
    var attributes: map<string, int>

    constructor ()
      ensures attributes == map[]
    {
      attributes := map[];
    }

    /** `contains(key)` */
    function Contains(key: string): bool
      reads this
    {
      key in attributes
    }

    /** `set(key, value)`; storing null (None) leaves no value under the key. */
    method Set(key: string, value: Option<int>)
      modifies this
      ensures value.Some? ==> attributes == old(attributes)[key := value.value]
      ensures value.None? ==> attributes == old(attributes) - {key}
    {
      if value.Some? {
        attributes := attributes[key := value.value];
      } else {
        attributes := attributes - {key};
      }
    }
  }

  /**
   * `getAccount(session)`: empty when the session holds no account id; otherwise the account
   * with the stored id.
   */
  function AccountOfSession<A>(session: Session, byId: int -> Option<A>): (r: Option<A>)
    reads session
    ensures !session.Contains(SessionAccountKey) ==> r == None
    ensures session.Contains(SessionAccountKey) ==> r == byId(session.attributes[SessionAccountKey])
  {
    if SessionAccountKey in session.attributes then byId(session.attributes[SessionAccountKey]) else None
  }

  /** `bindAccount(account, session)`: the session now names the account's id. */
  method BindAccount<A>(accountId: int, session: Session)
    modifies session
    ensures session.attributes == old(session.attributes)[SessionAccountKey := accountId]
    ensures forall byId: int -> Option<A> :: AccountOfSession(session, byId) == byId(accountId)
  {
    session.Set(SessionAccountKey, Some(accountId));
  }

  /** `unbindAccount(session)`: the session no longer names an account. */
  method UnbindAccount<A>(session: Session)
    modifies session
    ensures session.attributes == old(session.attributes) - {SessionAccountKey}
    ensures forall byId: int -> Option<A> :: AccountOfSession(session, byId) == None
  {
    session.Set(SessionAccountKey, None);
  }

  /** The user name of a search query is used only when it is not null, not empty and not "null". */
  predicate SearchableName(username: Option<string>) {
    username.Some? && username.value != "" && username.value != "null"
  }

  /**
   * `searchForAccount(query)`: the id lookup first, when the id is not -1, and a hit is returned
   * at once; then the user-name lookup, when the name is searchable; otherwise empty.
   */
  function SearchForAccount<A>(id: int, username: Option<string>,
                               byId: int -> Option<A>, byName: string -> Option<A>): (r: Option<A>)
    ensures id != -1 && byId(id).Some? ==> r == byId(id)
    ensures r.Some? ==> (id != -1 && r == byId(id)) || (SearchableName(username) && r == byName(username.value))
    ensures r.None? <==> (id == -1 || byId(id).None?) && (!SearchableName(username) || byName(username.value).None?)
  {
    if id != -1 && byId(id).Some? then byId(id)
    else if SearchableName(username) && byName(username.value).Some? then byName(username.value)
    else None
  }

  /** `getResults(query)`: the search result as a list of at most one account. */
  function GetResults<A>(id: int, username: Option<string>,
                         byId: int -> Option<A>, byName: string -> Option<A>): (r: seq<A>)
    ensures |r| <= 1
    ensures r == [] <==> SearchForAccount(id, username, byId, byName).None?
    ensures r != [] ==> Some(r[0]) == SearchForAccount(id, username, byId, byName)
  {
    match SearchForAccount(id, username, byId, byName)
    case None => []
    case Some(a) => [a]
  }

  /** An account as the store keeps it: its data entries and the identifiers of its roles. */
  datatype StoredAccount = StoredAccount(password: string, data: map<string, string>, roles: set<string>)

  /**
   * The manager state `checkAdmin` works on: `ROLE_MAP` (role identifier to role) and the
   * accounts by user name.
   */
  class AccountManager<R(==,!new)> {
    const roleId: R -> string
    var roles: map<string, R>
    var accounts: map<string, StoredAccount>

    constructor (roleId: R -> string)
      ensures Valid()
      ensures this.roleId == roleId && roles == map[] && accounts == map[]
    {
      this.roleId := roleId;
      roles := map[];
      accounts := map[];
    }

    /** Every role is registered under its own identifier. */
    predicate Valid()
      reads this
    {
      forall id :: id in roles ==> roleId(roles[id]) == id
    }

    /** `registerAccountRole(role)`: stored under its identifier, replacing any earlier role. */
    method RegisterAccountRole(role: R)
      requires Valid()
      modifies this`roles
      ensures Valid()
      ensures roles == old(roles)[roleId(role) := role]
      ensures GetAccountRole(roleId(role)) == Some(role)
    {
      roles := roles[roleId(role) := role];
    }

    /** `getAccountRole(id)`: the role registered under `id`, whose identifier is `id`, or empty. */
    function GetAccountRole(id: string): (r: Option<R>)
      requires Valid()
      reads this
      ensures r.None? <==> id !in roles
      ensures r.Some? ==> roleId(r.value) == id && r.value == roles[id]
    {
      if id in roles then Some(roles[id]) else None
    }

    /** `getRegisteredAccountRoles()`: every registered role, each found again by its identifier. */
    function RegisteredAccountRoles(): (r: set<R>)
      requires Valid()
      reads this
      ensures forall role :: role in r <==> roleId(role) in roles && GetAccountRole(roleId(role)) == Some(role)
    {
      set id | id in roles :: roles[id]
    }

    /**
     * `checkAdmin()`: registers the administrator role when no role has its identifier, and,
     * when there is no `admin` account, asks for one with password `admin`; account creation
     * may fail (`created` is false), and then nothing else happens. A created account gets the
     * data `administrator = true` and the administrator role.
     */
    method CheckAdmin(admin: R, created: bool)
      requires Valid()
      modifies this`roles, this`accounts
      ensures Valid() && GetAccountRole(roleId(admin)).Some?
      ensures roleId(admin) in old(roles) ==> roles == old(roles)
      ensures roleId(admin) !in old(roles) ==> roles == old(roles)[roleId(admin) := admin]
      ensures "admin" in old(accounts) || !created ==> accounts == old(accounts)
      ensures "admin" !in old(accounts) && created ==>
        accounts == old(accounts)["admin" := StoredAccount("admin", map["administrator" := "true"], {roleId(admin)})]
    {
      if GetAccountRole(roleId(admin)).None? {
        RegisterAccountRole(admin);
      }
      if "admin" !in accounts {
        if created {
          var account := StoredAccount("admin", map[], {});
          account := account.(data := account.data["administrator" := "true"]);
          account := account.(roles := account.roles + {roleId(admin)});
          assert account.roles == {roleId(admin)};
          assert account.data == map["administrator" := "true"];
          accounts := accounts["admin" := account];
        }
      }
    }
  }
}
