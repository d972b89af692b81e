/** The admin session store (store/authstore.ts): the in-memory session
    `{user, token, isAuthenticated, isLoading}`, the browser's key-value
    storage it writes the bearer token to, and its four actions `login`,
    `logout`, `setUser` and `checkAuth`.

    Each action is specified by a step function on a snapshot of the store
    and the storage; the `SessionStore` class performs the same action by
    assigning its fields one `set`/`localStorage` call at a time and promises
    that its new state is the step function's result. The REST client is a
    parameter whose answers decide the outcome, and every step reports the
    calls it made to it. */
module AuthStore {
  import opened Types
  import opened Text

  /** The storage key the token is written under, and the key `logout` also clears. */
  const AccessTokenKey: string := "access_token"
  const UserKey: string := "user"

  /** `localStorage`: string keys to string values. */
  type Storage = map<string, string>

  /** The auth part of the REST client: the answer of `POST /auth/login` for
      given credentials, and the answer of `GET /admin/me` for the bearer token
      the request interceptor attaches (none when storage holds no truthy token). */
  datatype AuthClient = AuthClient(
    login: LoginCredentials -> Reply<Token>,
    getCurrentAdmin: Option<string> -> Reply<Admin>)

  /** One call made to the client, with what it carried. */
  datatype ClientCall = LoginCall(credentials: LoginCredentials) | GetCurrentAdminCall(bearer: Option<string>)

  datatype Session = Session(
    user: Option<Admin>,
    token: Option<string>,
    isAuthenticated: bool,
    isLoading: bool)

  /** What the persistence middleware writes: `partialize`'s result. */
  datatype Persisted = Persisted(user: Option<Admin>, token: Option<string>, isAuthenticated: bool)

  /** The outcome of one action: the new session and storage, the client calls
      made in order, and the error the action threw to its caller, if any. */
  datatype Step = Step(session: Session, storage: Storage, calls: seq<ClientCall>, thrown: Option<ApiError>)

  /** The store as created: nobody signed in and nothing loading. */
  function InitialSession(): (s: Session)
    ensures s.user.None? && s.token.None? && !s.isAuthenticated && !s.isLoading
  {
    Session(None, None, false, false)
  }

  /** `localStorage.getItem('access_token')`. */
  function StoredToken(storage: Storage): Option<string> {
    if AccessTokenKey in storage then Some(storage[AccessTokenKey]) else None
  }

  /** A stored token that JavaScript treats as present: not null and not "". */
  predicate HasTruthyToken(storage: Storage): (b: bool)
    ensures b <==> StoredToken(storage).Some? && StoredToken(storage).value != ""
  {
    AccessTokenKey in storage && storage[AccessTokenKey] != ""
  }

  /** The `Authorization` header the request interceptor adds: the stored
      token when it is truthy, otherwise none. */
  function Bearer(storage: Storage): (b: Option<string>)
    ensures b.Some? <==> HasTruthyToken(storage)
    ensures b.Some? ==> b.value == storage[AccessTokenKey] && b.value != ""
  {
    if HasTruthyToken(storage) then Some(storage[AccessTokenKey]) else None
  }

  /** `login(credentials)`: `isLoading` is raised, the credentials are exchanged
      for a token, the token is written to storage, the profile is fetched with
      that token and the session is filled in. A failure of either call drops
      `isLoading` and rethrows; storage keeps the token if only the profile
      fetch failed. */
  function LoginStep(s: Session, storage: Storage, client: AuthClient, credentials: LoginCredentials): (r: Step)
    ensures !r.session.isLoading
    ensures r.thrown.None? <==> client.login(credentials).Ok? && client.getCurrentAdmin(Bearer(r.storage)).Ok?
    ensures client.login(credentials).Fail? ==>
      r.calls == [LoginCall(credentials)] && r.storage == storage && r.thrown == Some(client.login(credentials).error)
    ensures client.login(credentials).Ok? ==>
      var token := client.login(credentials).value.accessToken;
      && r.storage == storage[AccessTokenKey := token]
      && r.calls == [LoginCall(credentials), GetCurrentAdminCall(Bearer(r.storage))]
    ensures client.login(credentials).Ok? && client.getCurrentAdmin(Bearer(r.storage)).Fail? ==>
      r.thrown == Some(client.getCurrentAdmin(Bearer(r.storage)).error)
    ensures r.thrown.None? ==>
      && r.session.user == Some(client.getCurrentAdmin(Bearer(r.storage)).value)
      && r.session.token == Some(client.login(credentials).value.accessToken)
      && r.session.isAuthenticated
    ensures r.thrown.Some? ==> r.session == s.(isLoading := false)
  {
    var loading := s.(isLoading := true);
    match client.login(credentials)
    case Fail(e) => Step(loading.(isLoading := false), storage, [LoginCall(credentials)], Some(e))
    case Ok(tokenData) =>
      var stored := storage[AccessTokenKey := tokenData.accessToken];
      var calls := [LoginCall(credentials), GetCurrentAdminCall(Bearer(stored))];
      match client.getCurrentAdmin(Bearer(stored))
      case Fail(e) => Step(loading.(isLoading := false), stored, calls, Some(e))
      case Ok(user) => Step(Session(Some(user), Some(tokenData.accessToken), true, false), stored, calls, None)
  }

  /** `logout()`: both storage keys are removed and the session is emptied;
      `isLoading` is left alone and no call is made. */
  function LogoutStep(s: Session, storage: Storage): (r: Step)
    ensures AccessTokenKey !in r.storage && UserKey !in r.storage
    ensures forall k :: k in r.storage <==> k in storage && k != AccessTokenKey && k != UserKey
    ensures forall k :: k in r.storage ==> r.storage[k] == storage[k]
    ensures r.session.user.None? && r.session.token.None? && !r.session.isAuthenticated
    ensures r.session.isLoading == s.isLoading
    ensures r.calls == [] && r.thrown.None?
  {
    var cleared := storage - {AccessTokenKey} - {UserKey};
    Step(Session(None, None, false, s.isLoading), cleared, [], None)
  }

  /** `setUser(user)`: the profile is replaced and the session marked
      authenticated; the token and storage are not touched. */
  function SetUserStep(s: Session, storage: Storage, user: Admin): (r: Step)
    ensures r.session.user == Some(user) && r.session.isAuthenticated
    ensures r.session.token == s.token && r.session.isLoading == s.isLoading
    ensures r.storage == storage && r.calls == [] && r.thrown.None?
  {
    Step(s.(user := Some(user), isAuthenticated := true), storage, [], None)
  }

  /** `checkAuth()`: without a truthy stored token the session is marked signed
      out without any call and the in-memory token is left as it was; with one,
      the profile is fetched: success installs it together with the stored
      token, failure removes the stored token and clears the session. It never
      throws and never touches `isLoading`. */
  function CheckAuthStep(s: Session, storage: Storage, client: AuthClient): (r: Step)
    ensures r.thrown.None? && r.session.isLoading == s.isLoading
    ensures !HasTruthyToken(storage) ==>
      && r.calls == [] && r.storage == storage
      && r.session == s.(isAuthenticated := false, user := None)
    ensures HasTruthyToken(storage) ==>
      r.calls == [GetCurrentAdminCall(Some(storage[AccessTokenKey]))]
    ensures HasTruthyToken(storage) && client.getCurrentAdmin(Bearer(storage)).Ok? ==>
      && r.storage == storage
      && r.session.user == Some(client.getCurrentAdmin(Bearer(storage)).value)
      && r.session.token == Some(storage[AccessTokenKey])
      && r.session.isAuthenticated
    ensures HasTruthyToken(storage) && client.getCurrentAdmin(Bearer(storage)).Fail? ==>
      && r.storage == storage - {AccessTokenKey}
      && r.session == s.(user := None, token := None, isAuthenticated := false)
  {
    if !HasTruthyToken(storage) then
      Step(s.(isAuthenticated := false, user := None), storage, [], None)
    else
      var token := storage[AccessTokenKey];
      var calls := [GetCurrentAdminCall(Bearer(storage))];
      match client.getCurrentAdmin(Bearer(storage))
      case Ok(user) => Step(s.(user := Some(user), token := Some(token), isAuthenticated := true), storage, calls, None)
      case Fail(_) =>
        Step(s.(user := None, token := None, isAuthenticated := false), storage - {AccessTokenKey}, calls, None)
  }

  /** `partialize`: the part of the session the persistence middleware saves. */
  function Partialize(s: Session): Persisted {
    Persisted(s.user, s.token, s.isAuthenticated)
  }

  /** Rehydration: the persistence middleware merges a saved record over the
      current state, field by field. */
  function Rehydrate(p: Persisted, s: Session): (r: Session)
    ensures Partialize(r) == p && r.isLoading == s.isLoading
  {
    s.(user := p.user, token := p.token, isAuthenticated := p.isAuthenticated)
  }

  // Properties relating the actions

  /** Signed in implies a profile is present: every action keeps this. */
  ghost predicate UserWhenAuthenticated(s: Session) {
    s.isAuthenticated ==> s.user.Some?
  }

  /** An in-memory token implies storage holds the access-token key: every
      action keeps this too (a failed `checkAuth` removes both together). */
  ghost predicate TokenBacked(s: Session, storage: Storage) {
    s.token.Some? ==> AccessTokenKey in storage
  }

  lemma ActionsKeepInvariants(s: Session, storage: Storage, client: AuthClient,
                              credentials: LoginCredentials, user: Admin)
    requires UserWhenAuthenticated(s) && TokenBacked(s, storage)
    ensures var r := LoginStep(s, storage, client, credentials);
      UserWhenAuthenticated(r.session) && TokenBacked(r.session, r.storage)
    ensures var r := LogoutStep(s, storage);
      UserWhenAuthenticated(r.session) && TokenBacked(r.session, r.storage)
    ensures var r := SetUserStep(s, storage, user);
      UserWhenAuthenticated(r.session) && TokenBacked(r.session, r.storage)
    ensures var r := CheckAuthStep(s, storage, client);
      UserWhenAuthenticated(r.session) && TokenBacked(r.session, r.storage)
  {
  }

  /** "Authenticated implies a token" is not an invariant: `setUser` on a fresh
      store yields an authenticated session without a token. */
  lemma SetUserAuthenticatesWithoutToken(storage: Storage, user: Admin)
    ensures var r := SetUserStep(InitialSession(), storage, user);
      r.session.isAuthenticated && r.session.token.None?
  {
  }

  /** A failed re-login while signed in leaves the old session in place but
      the new token in storage, if the token exchange succeeded. */
  lemma FailedReloginDesynchronisesToken(s: Session, storage: Storage, client: AuthClient,
                                         credentials: LoginCredentials)
    requires s.isAuthenticated && s.token.Some?
    requires client.login(credentials).Ok? && client.login(credentials).value.accessToken != s.token.value
    requires client.getCurrentAdmin(Bearer(storage[AccessTokenKey := client.login(credentials).value.accessToken])).Fail?
    ensures var r := LoginStep(s, storage, client, credentials);
      && r.thrown.Some? && r.session.isAuthenticated && r.session.token == s.token
      && r.storage[AccessTokenKey] != r.session.token.value
  {
  }

  /** `logout` is idempotent. */
  lemma LogoutIdempotent(s: Session, storage: Storage)
    ensures var once := LogoutStep(s, storage);
      LogoutStep(once.session, once.storage) == once
  {
    var once := LogoutStep(s, storage);
    assert once.storage - {AccessTokenKey} - {UserKey} == once.storage;
  }

  /** After `logout`, `checkAuth` calls nothing and the session stays signed out. */
  lemma CheckAuthAfterLogout(s: Session, storage: Storage, client: AuthClient)
    ensures var out := LogoutStep(s, storage);
      var r := CheckAuthStep(out.session, out.storage, client);
      r.calls == [] && r.session == out.session && r.storage == out.storage
  {
  }

  /** After a successful login with a non-empty token, `checkAuth` against a
      client that answers the same for the same bearer confirms exactly the
      session login established, leaving storage as it is. */
  lemma CheckAuthConfirmsLogin(s: Session, storage: Storage, client: AuthClient,
                               credentials: LoginCredentials)
    requires LoginStep(s, storage, client, credentials).thrown.None?
    requires client.login(credentials).value.accessToken != ""
    ensures var r := LoginStep(s, storage, client, credentials);
      var c := CheckAuthStep(r.session, r.storage, client);
      c.session == r.session && c.storage == r.storage && c.calls == r.calls[1..]
  {
    var r := LoginStep(s, storage, client, credentials);
    assert HasTruthyToken(r.storage);
  }

  /** The persisted record holds exactly user, token and the authenticated
      flag: it does not depend on `isLoading`, and rehydrating it over any
      state restores those three fields and keeps that state's `isLoading`. */
  lemma PersistRoundTrip(s: Session, current: Session)
    ensures Partialize(s) == Partialize(s.(isLoading := !s.isLoading))
    ensures Rehydrate(Partialize(s), current) == s.(isLoading := current.isLoading)
  {
  }

  /** The login scenario: credentials admin/secret, a client answering token
      "abc" and a profile named admin. */
  lemma LoginScenario(admin: Admin)
    requires admin.username == "admin"
    ensures var client := AuthClient(c => Ok(Token("abc", "bearer")), b => Ok(admin));
      var r := LoginStep(InitialSession(), map[], client, LoginCredentials("admin", "secret"));
      && r.thrown.None? && r.session.isAuthenticated && r.session.token == Some("abc")
      && r.session.user.Some? && r.session.user.value.username == "admin"
      && r.storage == map[AccessTokenKey := "abc"]
  {
  }

  /** The store object: its fields are overwritten by each action as the
      source's `set` calls and `localStorage` writes do. */
  class SessionStore {
    var user: Option<Admin>
    var token: Option<string>
    var isAuthenticated: bool
    var isLoading: bool
    var storage: Storage

    function State(): Session
      reads this
    {
      Session(user, token, isAuthenticated, isLoading)
    }

    /** A fresh store over the storage the browser already holds. */
    constructor(storage: Storage)
      ensures State() == InitialSession() && this.storage == storage
    {
      user, token, isAuthenticated, isLoading := None, None, false, false;
      this.storage := storage;
    }

    method Login(client: AuthClient, credentials: LoginCredentials)
      returns (calls: seq<ClientCall>, thrown: Option<ApiError>)
      modifies this
      ensures Step(State(), storage, calls, thrown) == LoginStep(old(State()), old(storage), client, credentials)
    {
      isLoading := true;
      calls := [LoginCall(credentials)];
      match client.login(credentials)
      case Fail(e) =>
        isLoading := false;
        thrown := Some(e);
      case Ok(tokenData) =>
        storage := storage[AccessTokenKey := tokenData.accessToken];
        var bearer := Bearer(storage);
        calls := calls + [GetCurrentAdminCall(bearer)];
        match client.getCurrentAdmin(bearer)
        case Fail(e) =>
          isLoading := false;
          thrown := Some(e);
        case Ok(admin) =>
          user, token, isAuthenticated, isLoading := Some(admin), Some(tokenData.accessToken), true, false;
          thrown := None;
    }

    method Logout()
      modifies this
      ensures Step(State(), storage, [], None) == LogoutStep(old(State()), old(storage))
    {
      storage := storage - {AccessTokenKey};
      storage := storage - {UserKey};
      user, token, isAuthenticated := None, None, false;
    }

    method SetUser(user: Admin)
      modifies this
      ensures Step(State(), storage, [], None) == SetUserStep(old(State()), old(storage), user)
    {
      this.user, isAuthenticated := Some(user), true;
    }

    method CheckAuth(client: AuthClient) returns (calls: seq<ClientCall>)
      modifies this
      ensures Step(State(), storage, calls, None) == CheckAuthStep(old(State()), old(storage), client)
    {
      var stored := StoredToken(storage);
      if stored.None? || stored.value == "" {
        isAuthenticated, user := false, None;
        calls := [];
        return;
      }
      calls := [GetCurrentAdminCall(Bearer(storage))];
      match client.getCurrentAdmin(Bearer(storage))
      case Ok(admin) =>
        user, token, isAuthenticated := Some(admin), stored, true;
      case Fail(_) =>
        storage := storage - {AccessTokenKey};
        user, token, isAuthenticated := None, None, false;
    }
  }
}
