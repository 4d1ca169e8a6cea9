/** The browser's session state: which role a page acts for, where its token
    and user live in `localStorage`, the route guard, login and logout. Each
    effect and callback of the provider is one transition of `Auth`. */
module AuthContext {
  import opened Common
  import opened Text
  import opened Tokens

  /** The stored user object; `role` may be missing from it. */
  datatype User = User(id: string, email: string, role: Option<Role>)

  datatype Keys = Keys(tokenKey: string, userKey: string)

  type Storage = map<string, string>

  /** The provider's state, its `localStorage`, and the routes pushed so far. */
  datatype Auth = Auth(user: Option<User>, token: Option<string>, role: Option<Role>, loading: bool,
                       storage: Storage, pushed: seq<string>)

  /** `getStorageKeys`: each role has its own pair of keys. */
  function StorageKeys(role: Role): (k: Keys)
    ensures k.tokenKey != k.userKey
    ensures role == ADMIN ==> k == Keys("admin_token", "admin_user")
    ensures role == CLIENT ==> k == Keys("client_token", "client_user")
  {
    if role == ADMIN then Keys("admin_token", "admin_user") else Keys("client_token", "client_user")
  }

  /** The two roles never share a storage key. */
  lemma KeysApart()
    ensures var a := StorageKeys(ADMIN); var c := StorageKeys(CLIENT);
            {a.tokenKey, a.userKey} * {c.tokenKey, c.userKey} == {}
  {
  }

  /** A stored value that JavaScript treats as present: set and non-empty. */
  predicate Truthy(storage: Storage, key: string) {
    key in storage && storage[key] != ""
  }

  predicate AdminPath(pathname: string) { StartsWith(pathname, "/admin") }

  predicate ClientPath(pathname: string) { StartsWith(pathname, "/client") }

  /** The role the path implies when no role is known. */
  function PathRole(pathname: string): (r: Role)
    ensures r == ADMIN <==> AdminPath(pathname)
  {
    if AdminPath(pathname) then ADMIN else CLIENT
  }

  /** The role-selection effect: the path decides first, then whichever
      token is stored, the administrator's first. */
  function SelectRole(pathname: string, storage: Storage): (r: Option<Role>)
    ensures AdminPath(pathname) ==> r == Some(ADMIN)
    ensures !AdminPath(pathname) && ClientPath(pathname) ==> r == Some(CLIENT)
    ensures !AdminPath(pathname) && !ClientPath(pathname) ==>
              && (r == Some(ADMIN) <==> Truthy(storage, "admin_token"))
              && (r == Some(CLIENT) <==> !Truthy(storage, "admin_token") && Truthy(storage, "client_token"))
    ensures r.None? <==> !AdminPath(pathname) && !ClientPath(pathname)
                         && !Truthy(storage, "admin_token") && !Truthy(storage, "client_token")
  {
    if AdminPath(pathname) then Some(ADMIN)
    else if ClientPath(pathname) then Some(CLIENT)
    else if Truthy(storage, "admin_token") then Some(ADMIN)
    else if Truthy(storage, "client_token") then Some(CLIENT)
    else None
  }

  /** The session-restore effect. `parse` stands for `JSON.parse`, `None`
      when it throws: the token is then kept, the user left as it was, and
      the unreadable user entry removed. */
  function Restore(a: Auth, pathname: string, parse: string -> Option<User>): (a': Auth)
    ensures !a'.loading && a'.role == a.role && a'.pushed == a.pushed
    ensures a.role.None? && !AdminPath(pathname) && !ClientPath(pathname) ==>
              a' == a.(token := None, user := None, loading := false)
    ensures a'.token.Some? ==>
              var k := StorageKeys(a.role.GetOr(PathRole(pathname)));
              && Truthy(a.storage, k.tokenKey) && a'.token == Some(a.storage[k.tokenKey])
              && Truthy(a.storage, k.userKey) && a.storage[k.userKey] != "undefined"
    ensures a'.user.Some? && a'.user != a.user ==>
              var k := StorageKeys(a.role.GetOr(PathRole(pathname)));
              k.userKey in a.storage && a'.user == parse(a.storage[k.userKey])
    ensures a'.storage == a.storage || exists key :: key in a.storage && a'.storage == a.storage - {key}
  {
    if a.role.None? && !AdminPath(pathname) && !ClientPath(pathname) then
      a.(token := None, user := None, loading := false)
    else
      var k := StorageKeys(a.role.GetOr(PathRole(pathname)));
      if Truthy(a.storage, k.tokenKey) && Truthy(a.storage, k.userKey) && a.storage[k.userKey] != "undefined" then
        match parse(a.storage[k.userKey])
        case Some(u) => a.(token := Some(a.storage[k.tokenKey]), user := Some(u), loading := false)
        case None => a.(token := Some(a.storage[k.tokenKey]), storage := a.storage - {k.userKey}, loading := false)
      else
        a.(token := None, user := None, loading := false)
  }

  /** The signed-in user has role `role`. */
  predicate UserIs(a: Auth, role: Role) {
    a.user.Some? && a.user.value.role == Some(role)
  }

  /** The route-protection effect sends the browser to `/` from a protected
      page (anything under a role's prefix except its login page) whose role
      the session does not hold; nothing happens while loading. */
  predicate Redirects(a: Auth, pathname: string)
    ensures Redirects(a, pathname) ==>
              && !a.loading && (AdminPath(pathname) || ClientPath(pathname))
              && pathname != "/admin/login" && pathname != "/client/login"
    ensures && !a.loading && a.token.None? && (AdminPath(pathname) || ClientPath(pathname))
            && pathname != "/admin/login" && pathname != "/client/login" ==>
              Redirects(a, pathname)
  {
    PathsApart(pathname);
    && !a.loading
    && (|| (AdminPath(pathname) && pathname != "/admin/login" && (!(a.token.Some? && a.token.value != "") || !UserIs(a, ADMIN)))
        || (ClientPath(pathname) && pathname != "/client/login" && (!(a.token.Some? && a.token.value != "") || !UserIs(a, CLIENT))))
  }

  /** No path lies under both prefixes, nor is the other role's login page. */
  lemma PathsApart(pathname: string)
    ensures AdminPath(pathname) ==> !ClientPath(pathname) && pathname != "/client/login"
    ensures ClientPath(pathname) ==> pathname != "/admin/login"
  {
    if AdminPath(pathname) {
      assert pathname[1] == "/admin"[1];
    }
    if ClientPath(pathname) {
      assert pathname[1] == "/client"[1];
    }
  }

  function Dashboard(role: Role): string {
    if role == ADMIN then "/admin/dashboard" else "/client/dashboard"
  }

  /** `login`: an empty token is refused and nothing changes; otherwise only
      the chosen role's two keys are written, the session takes the new token
      and user, and the browser goes to that role's dashboard. */
  function Login(a: Auth, pathname: string, newToken: string, newUser: User, userJson: string): (a': Auth)
    ensures newToken == "" ==> a' == a
    ensures newToken != "" ==>
              var role := newUser.role.GetOr(PathRole(pathname));
              var k := StorageKeys(role);
              && a'.storage.Keys == a.storage.Keys + {k.tokenKey, k.userKey}
              && a'.storage[k.tokenKey] == newToken && a'.storage[k.userKey] == userJson
              && (forall key :: key in a.storage && key != k.tokenKey && key != k.userKey ==> a'.storage[key] == a.storage[key])
              && a'.token == Some(newToken) && a'.user == Some(newUser) && a'.role == Some(role)
              && a'.pushed == a.pushed + [Dashboard(role)] && a'.loading == a.loading
  {
    if newToken == "" then a
    else
      var role := newUser.role.GetOr(PathRole(pathname));
      var k := StorageKeys(role);
      a.(storage := a.storage[k.tokenKey := newToken][k.userKey := userJson],
         token := Some(newToken), user := Some(newUser), role := Some(role),
         pushed := a.pushed + [Dashboard(role)])
  }

  /** `logout`: removes only the current role's two keys, clears the session
      and goes to `/`. */
  function Logout(a: Auth, pathname: string): (a': Auth)
    ensures var k := StorageKeys(a.role.GetOr(PathRole(pathname)));
            && k.tokenKey !in a'.storage && k.userKey !in a'.storage
            && (forall key :: key in a.storage && key != k.tokenKey && key != k.userKey ==>
                  key in a'.storage && a'.storage[key] == a.storage[key])
            && a'.storage.Keys <= a.storage.Keys
    ensures a'.token.None? && a'.user.None? && a'.role.None?
    ensures a'.pushed == a.pushed + ["/"] && a'.loading == a.loading
  {
    var k := StorageKeys(a.role.GetOr(PathRole(pathname)));
    a.(storage := a.storage - {k.tokenKey, k.userKey}, token := None, user := None, role := None,
       pushed := a.pushed + ["/"])
  }

  /** Logging out of one role leaves the other role's session in storage. */
  lemma LogoutKeepsOtherRole(a: Auth, pathname: string, other: Role)
    requires other != a.role.GetOr(PathRole(pathname))
    ensures var k := StorageKeys(other);
            && (k.tokenKey in a.storage ==> Logout(a, pathname).storage[k.tokenKey] == a.storage[k.tokenKey])
            && (k.userKey in a.storage ==> Logout(a, pathname).storage[k.userKey] == a.storage[k.userKey])
  {
  }

  /** Reloading after a login restores the same session, provided the stored
      user text reads back as the user. */
  lemma {:induction false} LoginThenRestore(a: Auth, pathname: string, newToken: string, newUser: User,
                                           userJson: string, later: string, parse: string -> Option<User>)
    requires newToken != "" && userJson != "" && userJson != "undefined"
    requires parse(userJson) == Some(newUser)
    ensures var b := Restore(Login(a, pathname, newToken, newUser, userJson), later, parse);
            b.token == Some(newToken) && b.user == Some(newUser)
  {
    var role := newUser.role.GetOr(PathRole(pathname));
    var k := StorageKeys(role);
    var b := Login(a, pathname, newToken, newUser, userJson);
    assert b.storage[k.tokenKey] == newToken;
    assert b.storage[k.userKey] == userJson;
  }

  /** Once signed in with a user that names its role, that role's dashboard
      is not guarded away. */
  lemma {:induction false} LoginOpensDashboard(a: Auth, pathname: string, newToken: string, newUser: User, userJson: string)
    requires newToken != "" && newUser.role.Some? && !a.loading
    ensures !Redirects(Login(a, pathname, newToken, newUser, userJson), Dashboard(newUser.role.value))
  {
    var d := Dashboard(newUser.role.value);
    if newUser.role.value == ADMIN {
      assert d[..6] == "/admin";
      assert d[1] != "/client"[1];
    } else {
      assert d[..7] == "/client";
      assert d[1] != "/admin"[1];
    }
  }

  /** After logging out every protected page sends the browser away. */
  lemma LogoutClosesProtectedPages(a: Auth, pathname: string, page: string)
    requires !a.loading
    requires (AdminPath(page) && page != "/admin/login") || (ClientPath(page) && page != "/client/login")
    ensures Redirects(Logout(a, pathname), page)
  {
  }

  /** After logging out, a reload on the same role's pages finds no session. */
  lemma {:induction false} LogoutThenRestore(a: Auth, pathname: string, parse: string -> Option<User>)
    requires AdminPath(pathname) || ClientPath(pathname)
    requires a.role.None? || a.role == Some(PathRole(pathname))
    ensures Restore(Logout(a, pathname), pathname, parse).token.None?
    ensures Restore(Logout(a, pathname), pathname, parse).user.None?
  {
    var b := Logout(a, pathname);
    var k := StorageKeys(PathRole(pathname));
    assert k.tokenKey !in b.storage;
  }
}
