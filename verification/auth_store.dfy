/** The authentication store: the signed-in user, the token, the
    authenticated flag and the loading flag, together with the `auth_token`
    entry the store keeps in the browser's local storage. The server's
    answer, the clock (as the ISO text the client writes) and the stored
    token are parameters. */
module AuthStore {
  import opened Wrappers
  import opened Types
  import Api

  const NoUserMessage := "No user logged in"

  /** The placeholder user `login` signs in: the credentials' email, the
      two clock readings it takes for `createdAt` and `updatedAt`, every
      other field a fixed value. */
  function LoginUser(creds: LoginCredentials, created: string, updated: string): (u: AuthUser)
    ensures u.email == creds.email && u.isActive && u.lastLogin == None
    ensures u.id == "temp-user-id" && u.firstName == "User" && u.lastName == "" && u.fullName == "User"
    ensures u.createdAt == created && u.updatedAt == updated
  {
    AuthUser("temp-user-id", "User", "", creds.email, true, None, created, updated, "User")
  }

  /** The user `register` signs in: the names and email of the form, the
      full name being the two names with a space between, and the two clock
      readings it takes for `createdAt` and `updatedAt`. */
  function RegisteredUser(creds: RegisterCredentials, created: string, updated: string): (u: AuthUser)
    ensures u.firstName == creds.firstName && u.lastName == creds.lastName && u.email == creds.email
    ensures u.fullName == FullName(u.firstName, u.lastName)
    ensures u.id == "temp-user-id" && u.isActive && u.lastLogin == None
    ensures u.createdAt == created && u.updatedAt == updated
  {
    AuthUser("temp-user-id", creds.firstName, creds.lastName, creds.email, true, None, created, updated,
      FullName(creds.firstName, creds.lastName))
  }

  /** `${first} ${last}`. */
  function FullName(first: string, last: string): string {
    first + " " + last
  }

  /** `Partial<AuthUser>`: the fields an update carries. */
  datatype ProfileUpdate = ProfileUpdate(
    id: Option<string>,
    firstName: Option<string>,
    lastName: Option<string>,
    email: Option<string>,
    isActive: Option<bool>,
    lastLogin: Option<Option<string>>,
    createdAt: Option<string>,
    updatedAt: Option<string>,
    fullName: Option<string>)

  /** `updates.field || current`: a present, non-empty text wins. */
  function OrCurrent(o: Option<string>, current: string): (r: string)
    ensures o.Some? && o.value != "" ==> r == o.value
    ensures !(o.Some? && o.value != "") ==> r == current
  {
    if o.Some? && o.value != "" then o.value else current
  }

  /** The user after `updateProfile(updates)`: every field the update
      carries replaces the current one, the full name is rebuilt from the
      names (an empty name in the update falls back to the current one), and
      `updatedAt` is the current time. */
  function ApplyUpdate(u: AuthUser, p: ProfileUpdate, now: string): (r: AuthUser)
    ensures r.id == p.id.GetOr(u.id) && r.email == p.email.GetOr(u.email)
    ensures r.firstName == p.firstName.GetOr(u.firstName) && r.lastName == p.lastName.GetOr(u.lastName)
    ensures r.isActive == p.isActive.GetOr(u.isActive) && r.lastLogin == p.lastLogin.GetOr(u.lastLogin)
    ensures r.createdAt == p.createdAt.GetOr(u.createdAt)
    ensures r.fullName == FullName(OrCurrent(p.firstName, u.firstName), OrCurrent(p.lastName, u.lastName))
    ensures r.updatedAt == now
  {
    AuthUser(
      p.id.GetOr(u.id),
      p.firstName.GetOr(u.firstName),
      p.lastName.GetOr(u.lastName),
      p.email.GetOr(u.email),
      p.isActive.GetOr(u.isActive),
      p.lastLogin.GetOr(u.lastLogin),
      p.createdAt.GetOr(u.createdAt),
      now,
      FullName(OrCurrent(p.firstName, u.firstName), OrCurrent(p.lastName, u.lastName)))
  }

  /** The update does not clear a name. */
  predicate KeepsNames(p: ProfileUpdate) {
    p.firstName != Some("") && p.lastName != Some("")
  }

  /** Unless a name is cleared, the full name after an update is the new
      first and last name with a space between. */
  lemma FullNameFollowsNames(u: AuthUser, p: ProfileUpdate, now: string)
    requires KeepsNames(p)
    ensures ApplyUpdate(u, p, now).fullName ==
      FullName(ApplyUpdate(u, p, now).firstName, ApplyUpdate(u, p, now).lastName)
  {
  }

  /** Unless a name is cleared, applying the same update twice at the same
      instant is applying it once. */
  lemma ApplyUpdateIdempotent(u: AuthUser, p: ProfileUpdate, now: string)
    requires KeepsNames(p)
    ensures ApplyUpdate(ApplyUpdate(u, p, now), p, now) == ApplyUpdate(u, p, now)
  {
  }

  /** Clearing the first name keeps the old one in the full name, and a
      second identical update then drops it: the update is not idempotent. */
  lemma ClearedNameExample()
    ensures var u := AuthUser("1", "Ada", "Lovelace", "ada@example.com", true, None, "t0", "t0", "Ada Lovelace");
      var p := ProfileUpdate(None, Some(""), None, None, None, None, None, None, None);
      && ApplyUpdate(u, p, "t1").firstName == ""
      && ApplyUpdate(u, p, "t1").fullName == "Ada Lovelace"
      && ApplyUpdate(ApplyUpdate(u, p, "t1"), p, "t1").fullName == " Lovelace"
  {
  }

  /** What the store persists (`partialize`): the user, the token and the
      authenticated flag, never the loading flag. */
  datatype Persisted = Persisted(user: Option<AuthUser>, token: Option<string>, isAuthenticated: bool)

  class Store {
    var user: Option<AuthUser>
    var token: Option<string>
    var isAuthenticated: bool
    var isLoading: bool
    /** The `auth_token` entry of local storage. */
    var savedToken: Option<string>

    /** The initial state, next to what local storage already holds. */
    constructor(saved: Option<string>)
      ensures user == None && token == None && !isAuthenticated && !isLoading
      ensures savedToken == saved
    {
      user := None;
      token := None;
      isAuthenticated := false;
      isLoading := false;
      savedToken := saved;
    }

    /** The snapshot `partialize` takes of the store. */
    function Snapshot(): (p: Persisted)
      reads this
      ensures p.user == user && p.token == token && p.isAuthenticated == isAuthenticated
    {
      Persisted(user, token, isAuthenticated)
    }

    /** Rehydration: the persisted fields overwrite the current ones. */
    method Rehydrate(p: Persisted)
      modifies this
      ensures user == p.user && token == p.token && isAuthenticated == p.isAuthenticated
      ensures isLoading == old(isLoading) && savedToken == old(savedToken)
    {
      user := p.user;
      token := p.token;
      isAuthenticated := p.isAuthenticated;
    }

    /** Signs in `user` with the server's token and saves the token. */
    method SignIn(u: AuthUser, resp: AuthResponse)
      modifies this
      ensures user == Some(u) && token == Some(resp.token) && isAuthenticated && !isLoading
      ensures savedToken == Some(resp.token)
    {
      savedToken := Some(resp.token);
      user := Some(u);
      token := Some(resp.token);
      isAuthenticated := true;
      isLoading := false;
    }

    /** `login(creds)`: a successful answer signs in the placeholder user
        with the answer's token and saves the token; a failure only stops
        loading and hands the error back. */
    method Login(creds: LoginCredentials, baseUrl: Option<string>, reply: Api.Reply<AuthResponse>,
      created: string, updated: string)
      returns (r: Outcome<string>)
      modifies this
      ensures var answer := Api.ApiCall(baseUrl, Api.LoginEndpoint, reply);
        && (answer.Success? ==>
              && r == Pass
              && user == Some(LoginUser(creds, created, updated)) && token == Some(answer.value.token)
              && isAuthenticated && savedToken == Some(answer.value.token))
        && (answer.Failure? ==>
              && r == Fail(answer.error)
              && user == old(user) && token == old(token)
              && isAuthenticated == old(isAuthenticated) && savedToken == old(savedToken))
      ensures !isLoading
    {
      isLoading := true;
      var answer := Api.ApiCall(baseUrl, Api.LoginEndpoint, reply);
      match answer {
        case Success(resp) =>
          SignIn(LoginUser(creds, created, updated), resp);
          r := Pass;
        case Failure(msg) =>
          isLoading := false;
          r := Fail(msg);
      }
    }

    /** `register(creds)`: as `login`, signing in the user the form
        describes. */
    method Register(creds: RegisterCredentials, baseUrl: Option<string>, reply: Api.Reply<AuthResponse>,
      created: string, updated: string)
      returns (r: Outcome<string>)
      modifies this
      ensures var answer := Api.ApiCall(baseUrl, Api.RegisterEndpoint, reply);
        && (answer.Success? ==>
              && r == Pass
              && user == Some(RegisteredUser(creds, created, updated)) && token == Some(answer.value.token)
              && isAuthenticated && savedToken == Some(answer.value.token))
        && (answer.Failure? ==>
              && r == Fail(answer.error)
              && user == old(user) && token == old(token)
              && isAuthenticated == old(isAuthenticated) && savedToken == old(savedToken))
      ensures !isLoading
    {
      isLoading := true;
      var answer := Api.ApiCall(baseUrl, Api.RegisterEndpoint, reply);
      match answer {
        case Success(resp) =>
          SignIn(RegisteredUser(creds, created, updated), resp);
          r := Pass;
        case Failure(msg) =>
          isLoading := false;
          r := Fail(msg);
      }
    }

    /** `logout()`: forgets the user and the token, here and in storage. */
    method Logout()
      modifies this
      ensures user == None && token == None && !isAuthenticated && !isLoading
      ensures savedToken == None
    {
      savedToken := None;
      user := None;
      token := None;
      isAuthenticated := false;
      isLoading := false;
    }

    /** `updateProfile(updates)`: with nobody signed in it fails and changes
        nothing; otherwise it replaces the user by the updated one. */
    method UpdateProfile(p: ProfileUpdate, now: string) returns (r: Outcome<string>)
      modifies this
      ensures old(user).None? ==> r == Fail(NoUserMessage) && user == None
      ensures old(user).Some? ==> r == Pass && user == Some(ApplyUpdate(old(user).value, p, now))
      ensures token == old(token) && isAuthenticated == old(isAuthenticated)
      ensures isLoading == old(isLoading) && savedToken == old(savedToken)
    {
      if user.None? {
        r := Fail(NoUserMessage);
      } else {
        user := Some(ApplyUpdate(user.value, p, now));
        r := Pass;
      }
    }

    /** `initialize()`: a non-empty saved token makes the store
        authenticated with that token and no user; otherwise nothing
        changes. */
    method Initialize()
      modifies this
      ensures Api.Truthy(old(savedToken)) ==>
        user == None && token == old(savedToken) && isAuthenticated
      ensures !Api.Truthy(old(savedToken)) ==>
        user == old(user) && token == old(token) && isAuthenticated == old(isAuthenticated)
      ensures isLoading == old(isLoading) && savedToken == old(savedToken)
    {
      if Api.Truthy(savedToken) {
        user := None;
        token := savedToken;
        isAuthenticated := true;
      }
    }
  }

  /** After a successful login, a store started afresh on the same storage
      and initialized is authenticated with the same token. */
  method LoginSurvivesReload(creds: LoginCredentials, baseUrl: Option<string>, token: string,
    created: string, updated: string)
    returns (reloaded: Store)
    requires Api.Truthy(baseUrl) && token != ""
    ensures reloaded.isAuthenticated && reloaded.token == Some(token) && reloaded.user == None
  {
    var s := new Store(None);
    var reply := Api.Response(200, AuthResponse(None, token), Api.ErrorBody(None, None, None));
    var r := s.Login(creds, baseUrl, reply, created, updated);
    reloaded := new Store(s.savedToken);
    reloaded.Initialize();
  }

  /** After a logout, a store started afresh on the same storage stays
      signed out when initialized. */
  method LogoutSurvivesReload(s: Store) returns (reloaded: Store)
    modifies s
    ensures !reloaded.isAuthenticated && reloaded.token == None && reloaded.user == None
  {
    s.Logout();
    reloaded := new Store(s.savedToken);
    reloaded.Initialize();
  }

  /** A store started afresh and rehydrated from another store's snapshot
      has its session, and is not loading even if the other one was. */
  method ReloadKeepsSession(s: Store) returns (reloaded: Store)
    ensures reloaded.user == s.user && reloaded.token == s.token
    ensures reloaded.isAuthenticated == s.isAuthenticated && !reloaded.isLoading
    ensures reloaded.savedToken == s.savedToken
  {
    reloaded := new Store(s.savedToken);
    reloaded.Rehydrate(s.Snapshot());
  }
}
