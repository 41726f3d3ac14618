/** The frontend's authentication store (frontend/src/stores/auth.js): four
    fields updated by its actions, and the "token" slot of localStorage. */
module AuthStore {
  import opened Wrappers
  import opened Json

  const ExpKey := "exp"

  /** `jwtDecode`: the payload of a token, or None where it throws. */
  type Decoder = string -> Option<Object>

  /** JavaScript truthiness of a token value: of the string values, exactly `null`
      and `""` are falsy. */
  function Truthy(t: Option<string>): (r: bool)
    ensures r <==> t != None && t != Some("")
  {
    t.Some? && t.value != ""
  }

  /** `decoded.exp * 1000 > Date.now()` with the clock in milliseconds; a missing
      or non-numeric `exp` makes the comparison false. On whole seconds: the token
      is unexpired exactly while the current second is before `exp`. */
  function Unexpired(payload: Object, nowMs: int): (r: bool)
    ensures r <==> NumberAt(payload, ExpKey).Some? && nowMs / 1000 < NumberAt(payload, ExpKey).value
  {
    NumberAt(payload, ExpKey).Some? && NumberAt(payload, ExpKey).value * 1000 > nowMs
  }

  /** The value kept under the key 'token' in localStorage, shared by the whole page. */
  class LocalStorage {
    var token: Option<string>

    constructor (saved: Option<string>)
      ensures token == saved
    {
      token := saved;
    }
  }

  /** The argument of `setUser`: a profile object whose fields may be missing. */
  datatype Profile = Profile(username: Option<string>, email: Option<string>)

  /** A snapshot of the store's fields together with the localStorage slot. */
  datatype Snapshot = Snapshot(token: Option<string>, user: Option<Object>,
                               username: Option<string>, email: Option<string>, saved: Option<string>)

  /** The state `state()` creates: the saved token if it is truthy, else null; the rest null. */
  function Initial(saved: Option<string>): (s: Snapshot)
    ensures Truthy(saved) ==> s.token == saved
    ensures !Truthy(saved) ==> s.token.None?
    ensures s.user.None? && s.username.None? && s.email.None? && s.saved == saved
  {
    Snapshot(if Truthy(saved) then saved else None, None, None, None, saved)
  }

  /** `setToken(t)`: the token is set and saved, the user becomes the decoded
      payload or null; username and email are left alone. */
  function AfterSetToken(s: Snapshot, t: string, decode: Decoder): (r: Snapshot)
    ensures r.token == Some(t) && r.saved == Some(t) && r.user == decode(t)
    ensures r.username == s.username && r.email == s.email
  {
    s.(token := Some(t), saved := Some(t), user := decode(t))
  }

  /** `clearToken()`: every field null and the saved token removed. */
  function AfterClear(s: Snapshot): (r: Snapshot)
    ensures r.token.None? && r.user.None? && r.username.None? && r.email.None? && r.saved.None?
  {
    Snapshot(None, None, None, None, None)
  }

  /** `setUser(user)`: only username and email change. */
  function AfterSetUser(s: Snapshot, p: Profile): (r: Snapshot)
    ensures r.token == s.token && r.user == s.user && r.saved == s.saved
    ensures r.username == p.username && r.email == p.email
  {
    s.(username := p.username, email := p.email)
  }

  /** Clearing twice is clearing once, whatever the state was. */
  lemma ClearIdempotent(s: Snapshot)
    ensures AfterClear(AfterClear(s)) == AfterClear(s)
    ensures AfterClear(s) == Initial(None)
  {
  }

  /** The store proper. */
  class Store {
    const storage: LocalStorage
    var token: Option<string>
    var user: Option<Object>
    var username: Option<string>
    var email: Option<string>

    /** The store's fields and the storage slot, as one value. */
    function State(): (s: Snapshot)
      reads this, storage
    {
      Snapshot(token, user, username, email, storage.token)
    }

    constructor (storage: LocalStorage)
      ensures this.storage == storage
      ensures State() == Initial(old(storage.token))
    {
      this.storage := storage;
      token := if Truthy(storage.token) then storage.token else None;
      user, username, email := None, None, None;
    }

    method SetToken(t: string, decode: Decoder)
      modifies this, storage
      ensures State() == AfterSetToken(old(State()), t, decode)
    {
      token := Some(t);
      storage.token := Some(t);
      user := decode(t);
    }

    method ClearToken()
      modifies this, storage
      ensures State() == AfterClear(old(State()))
    {
      token, user, username, email := None, None, None, None;
      storage.token := None;
    }

    /** `isTokenValid()`: false without a truthy token or when decoding throws,
        otherwise the expiry comparison. */
    function IsTokenValid(nowMs: int, decode: Decoder): (valid: bool)
      reads this
      ensures !Truthy(token) ==> !valid
      ensures Truthy(token) && decode(token.value).None? ==> !valid
      ensures Truthy(token) && decode(token.value).Some? ==> (valid <==> Unexpired(decode(token.value).value, nowMs))
    {
      if !Truthy(token) then false
      else match decode(token.value)
        case None => false
        case Some(payload) => Unexpired(payload, nowMs)
    }

    method SetUser(p: Profile)
      modifies this
      ensures State() == AfterSetUser(old(State()), p)
    {
      username := p.username;
      email := p.email;
    }
  }
}
