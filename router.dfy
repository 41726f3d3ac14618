/** The client-side route table and its navigation guard (frontend/src/router/index.js). */
module Router {
  import opened Wrappers
  import opened Json
  import opened AuthStore

  /** One entry of the route table; `requiresAuth` is its `meta.requiresAuth`. */
  datatype Route = Route(path: string, name: string, requiresAuth: bool)

  const LoginRoute := "login"

  const Routes: seq<Route> := [
    Route("/", "home", false),
    Route("/first", "first", true),
    Route("/second", "second", true),
    Route("/login", LoginRoute, false),
    Route("/register", "register", false),
    Route("/profile", "profile", true)
  ]

  /** `to.meta.requiresAuth` for the route named `to`; a name outside the table has
      no meta. The login page the guard redirects to is not protected itself. */
  function RequiresAuth(to: string): (r: bool)
    ensures r ==> to != LoginRoute
  {
    exists i :: 0 <= i < |Routes| && Routes[i].name == to && Routes[i].requiresAuth
  }

  /** Exactly the first, second and profile pages are protected. */
  lemma ProtectedRoutes(to: string)
    ensures RequiresAuth(to) <==> to == "first" || to == "second" || to == "profile"
  {
    if to == "first" { assert Routes[1].name == to; }
    if to == "second" { assert Routes[2].name == to; }
    if to == "profile" { assert Routes[5].name == to; }
  }

  /** The router's own `isTokenValid(token)`: the expiry comparison, false where decoding throws. */
  function IsTokenValid(token: string, nowMs: int, decode: Decoder): (valid: bool)
    ensures valid <==> decode(token).Some? && Unexpired(decode(token).value, nowMs)
  {
    match decode(token)
    case None => false
    case Some(payload) => Unexpired(payload, nowMs)
  }

  /** The store's check and the router's agree on every truthy token. */
  lemma StoreAgreesWithRouter(store: Store, nowMs: int, decode: Decoder)
    requires Truthy(store.token)
    ensures store.IsTokenValid(nowMs, decode) == IsTokenValid(store.token.value, nowMs, decode)
  {
  }

  /** What the guard tells the router: go on, or go to the named route instead. */
  datatype Nav = Proceed | Redirect(name: string)

  /** The token the guard decides on: the store's if truthy, else the saved one. */
  function EffectiveToken(s: Snapshot): (t: Option<string>)
    ensures Truthy(s.token) ==> t == s.token
    ensures !Truthy(s.token) ==> t == s.saved
  {
    if Truthy(s.token) then s.token else s.saved
  }

  /** The guard on values: the snapshot after the guard has run, and its decision.
      It either lets the navigation through or sends it to login, and a redirect
      leaves the store and the saved token cleared. */
  function Guard(s: Snapshot, to: string, nowMs: int, decode: Decoder): (g: (Snapshot, Nav))
    ensures g.1 == Proceed || g.1 == Redirect(LoginRoute)
    ensures g.1.Redirect? ==> g.0 == AfterClear(s)
  {
    var loaded := if !Truthy(s.token) && Truthy(s.saved) then AfterSetToken(s, s.saved.value, decode) else s;
    var token := EffectiveToken(s);
    if RequiresAuth(to) && (!Truthy(token) || !IsTokenValid(token.value, nowMs, decode))
    then (AfterClear(loaded), Redirect(LoginRoute))
    else (loaded, Proceed)
  }

  /** The guard redirects to login exactly when the route is protected and no truthy,
      unexpired token is at hand. */
  lemma GuardRedirectsIff(s: Snapshot, to: string, nowMs: int, decode: Decoder)
    ensures Guard(s, to, nowMs, decode).1 == Redirect(LoginRoute) <==>
              RequiresAuth(to) && !(Truthy(EffectiveToken(s)) && IsTokenValid(EffectiveToken(s).value, nowMs, decode))
  {
  }

  /** When the guard lets the navigation through, the store is unchanged unless it
      had no truthy token and storage did: then that token was loaded through `setToken`. */
  lemma GuardProceedState(s: Snapshot, to: string, nowMs: int, decode: Decoder)
    ensures var (s', nav) := Guard(s, to, nowMs, decode);
            nav == Proceed ==>
              && (Truthy(s.token) ==> s' == s)
              && (!Truthy(s.token) && Truthy(s.saved) ==>
                    s'.token == s.saved && s'.user == decode(s.saved.value) && s'.saved == s.saved
                    && s'.username == s.username && s'.email == s.email)
              && (!Truthy(s.token) && !Truthy(s.saved) ==> s' == s)
  {
  }

  /** Pages outside the protected set are never redirected. */
  lemma UnprotectedRoutesProceed(s: Snapshot, to: string, nowMs: int, decode: Decoder)
    requires to != "first" && to != "second" && to != "profile"
    ensures Guard(s, to, nowMs, decode).1 == Proceed
  {
    ProtectedRoutes(to);
  }

  /** `router.beforeEach`: the guard run against the live store. */
  method BeforeEach(store: Store, to: string, nowMs: int, decode: Decoder) returns (nav: Nav)
    modifies store, store.storage
    ensures (store.State(), nav) == Guard(old(store.State()), to, nowMs, decode)
  {
    var token := store.token;
    if !Truthy(token) {
      token := store.storage.token;
      if Truthy(token) {
        store.SetToken(token.value, decode);
      }
    }
    if RequiresAuth(to) {
      if !Truthy(token) || !IsTokenValid(token.value, nowMs, decode) {
        store.ClearToken();
        return Redirect(LoginRoute);
      }
    }
    return Proceed;
  }
}
