/** The browser-side session (`AuthProvider` in `AuthContext.jsx`): the
    signed-in user held in memory and mirrored in `localStorage` under the
    two keys "token" and "user".

    `U` is the user object; `None` is JavaScript's null. `JSON.stringify` and
    `JSON.parse` are parameters: the model only needs that parsing a
    stringified user gives the user back and that the text is never empty.
 */
module Session {
  import opened Wrappers

  const TokenKey: string := "token"
  const UserKey: string := "user"

  /** `localStorage`: string keys to string values. */
  type Storage = map<string, string>

  /** `localStorage.getItem(key)`: the stored text, or null. */
  function Get(s: Storage, key: string): (r: Option<string>)
    ensures r.Some? <==> key in s
    ensures r.Some? ==> r.value == s[key]
  {
    if key in s then Some(s[key]) else None
  }

  /** JavaScript truthiness of a stored value: present and not the empty string. */
  predicate Truthy(v: Option<string>) {
    v.Some? && v.value != ""
  }

  /** The provider's state: `user`, `loading`, and the browser storage it mirrors. */
  datatype State<U> = State(user: Option<U>, loading: bool, storage: Storage)

  /** `JSON.stringify` and `JSON.parse` on user objects: the text of a user
      is never empty and parses back to the same user. */
  ghost predicate JsonCodec<U(!new)>(stringify: U -> string, parse: string -> U) {
    forall u: U :: stringify(u) != "" && parse(stringify(u)) == u
  }

  /** A fresh mount of the provider (a page load): no user yet, still loading. */
  function Mount<U>(storage: Storage): (r: State<U>)
    ensures r.user.None? && r.loading && r.storage == storage
  {
    State(None, true, storage)
  }

  /** The mount effect: when both a token and a user are stored, the stored
      user is parsed and becomes the user; loading ends either way. */
  function Hydrate<U>(st: State<U>, parse: string -> U): (r: State<U>)
    ensures !r.loading
    ensures r.storage == st.storage
    ensures Truthy(Get(st.storage, TokenKey)) && Truthy(Get(st.storage, UserKey))
            ==> r.user == Some(parse(st.storage[UserKey]))
    ensures !(Truthy(Get(st.storage, TokenKey)) && Truthy(Get(st.storage, UserKey))) ==> r.user == st.user
  {
    var token := Get(st.storage, TokenKey);
    var userData := Get(st.storage, UserKey);
    var user := if Truthy(token) && Truthy(userData) then Some(parse(userData.value)) else st.user;
    State(user, false, st.storage)
  }

  /** A page load: mount, then the hydrate effect. */
  function Reload<U>(storage: Storage, parse: string -> U): State<U> {
    Hydrate(Mount(storage), parse)
  }

  /** After a page load the user is set exactly when both keys hold a
      non-empty value, and storage is not touched. */
  lemma ReloadNeedsBoth<U>(storage: Storage, parse: string -> U)
    ensures Reload(storage, parse).user.Some? <==> Truthy(Get(storage, TokenKey)) && Truthy(Get(storage, UserKey))
    ensures Reload(storage, parse).storage == storage && !Reload(storage, parse).loading
  {
  }

  /** `login(token, userData)`: both keys are written, then the user is set. */
  function Login<U>(st: State<U>, token: string, userData: U, stringify: U -> string): (r: State<U>)
    ensures r.user == Some(userData) && r.loading == st.loading
    ensures Get(r.storage, TokenKey) == Some(token)
    ensures Get(r.storage, UserKey) == Some(stringify(userData))
    ensures forall k :: k != TokenKey && k != UserKey ==> Get(r.storage, k) == Get(st.storage, k)
  {
    var storage := st.storage[TokenKey := token][UserKey := stringify(userData)];
    State(Some(userData), st.loading, storage)
  }

  /** A login with a non-empty token survives a page load: the stored user
      parses back to the user that logged in. */
  lemma LoginSurvivesReload<U(!new)>(st: State<U>, token: string, userData: U,
                                     stringify: U -> string, parse: string -> U)
    requires JsonCodec(stringify, parse)
    requires token != ""
    ensures Reload(Login(st, token, userData, stringify).storage, parse).user == Some(userData)
  {
    var s := Login(st, token, userData, stringify).storage;
    assert Get(s, UserKey) == Some(stringify(userData));
    assert stringify(userData) != "" && parse(stringify(userData)) == userData;
  }

  /** `logout()`: both keys are removed and the user becomes null. */
  function Logout<U>(st: State<U>): (r: State<U>)
    ensures r.user.None? && r.loading == st.loading
    ensures Get(r.storage, TokenKey).None? && Get(r.storage, UserKey).None?
    ensures forall k :: k != TokenKey && k != UserKey ==> Get(r.storage, k) == Get(st.storage, k)
  {
    State(None, st.loading, st.storage - {TokenKey, UserKey})
  }

  /** Logging out twice is logging out once, and a page load after a logout
      finds no user. */
  lemma LogoutIsIdempotent<U>(st: State<U>, parse: string -> U)
    ensures Logout(Logout(st)) == Logout(st)
    ensures Reload(Logout(st).storage, parse).user.None?
  {
  }

  /** The argument of `updateUser`: a new user, or a function of the previous one. */
  datatype Updater<!U> = Value(next: Option<U>) | Apply(f: Option<U> -> Option<U>)

  /** `updateUser(updater)`: the next user is the value, or the function
      applied to the previous user; a non-null next user is written to
      storage and a null one removes the stored user. The token is never
      touched. */
  function UpdateUser<U>(st: State<U>, updater: Updater<U>, stringify: U -> string): (r: State<U>)
    ensures updater.Value? ==> r.user == updater.next
    ensures updater.Apply? ==> r.user == updater.f(st.user)
    ensures r.user.Some? ==> Get(r.storage, UserKey) == Some(stringify(r.user.value))
    ensures r.user.None? ==> Get(r.storage, UserKey).None?
    ensures forall k :: k != UserKey ==> Get(r.storage, k) == Get(st.storage, k)
    ensures r.loading == st.loading
  {
    var next := match updater
      case Value(v) => v
      case Apply(f) => f(st.user);
    var storage := if next.Some? then st.storage[UserKey := stringify(next.value)] else st.storage - {UserKey};
    State(next, st.loading, storage)
  }

  /** A function updater behaves as the value it computes from the current user. */
  lemma UpdaterFunctionIsItsValue<U>(st: State<U>, f: Option<U> -> Option<U>, stringify: U -> string)
    ensures UpdateUser(st, Apply(f), stringify) == UpdateUser(st, Value(f(st.user)), stringify)
  {
  }

  /** Updating to a user keeps the session across a page load when a token
      is stored; updating to null keeps the token but signs the user out at
      the next page load. */
  lemma UpdateAcrossReload<U(!new)>(st: State<U>, updater: Updater<U>, stringify: U -> string, parse: string -> U)
    requires JsonCodec(stringify, parse)
    ensures var r := UpdateUser(st, updater, stringify);
            Truthy(Get(st.storage, TokenKey)) ==> Reload(r.storage, parse).user == r.user
    ensures var r := UpdateUser(st, updater, stringify);
            r.user.None? ==> Get(r.storage, TokenKey) == Get(st.storage, TokenKey) && Reload(r.storage, parse).user.None?
  {
    var r := UpdateUser(st, updater, stringify);
    if r.user.Some? {
      assert stringify(r.user.value) != "" && parse(stringify(r.user.value)) == r.user.value;
    }
  }
}
