/** Properties that cross the files: the header the frontend builds against the
    gate that parses it, and tokens the backend issues against the gate that
    checks them and the handlers behind it. */
module System {
  import opened Wrappers
  import opened Json
  import opened Jwt
  import opened Http
  import opened Text
  import Middleware
  import AuthHandlers
  import UserHandlers
  import AuthStore
  import Api
  import Accounts

  /** What the JWT library is assumed to report, at the instant `checkNanos`, for
      every token the issuer signs: a non-empty, space-free string of the HMAC
      family with a matching signature and the signed claims, valid exactly while
      the instant is before `exp` (the library's expiry rule). A numeric `exp` of 0
      is read by the library's claim map as no expiry at all, so such a token is
      always valid. */
  ghost predicate Coherent(sign: Claims -> Option<string>, inspect: string -> Inspection, checkNanos: int) {
    forall id: int, exp: int :: sign(AuthHandlers.IssuedClaims(id, exp)).Some? ==>
      var t := sign(AuthHandlers.IssuedClaims(id, exp)).value;
      && t != "" && ' ' !in t
      && inspect(t) == Decoded(HMAC(256), AuthHandlers.IssuedClaims(id, exp), true,
                               exp == 0 || checkNanos < exp * AuthHandlers.NanosPerSecond)
  }

  /** Round trip across the wire: the header the interceptor builds from a truthy
      token passes the gate's scheme check and yields that very token, exactly when
      the token has no space; with a space it is refused as malformed. */
  lemma InterceptorHeaderRoundTrip(headers: map<string, string>, token: string)
    requires AuthStore.Truthy(Some(token))
    ensures Api.AuthorizationHeader in Api.WithAuthorization(headers, Some(token))
    ensures var h := Api.WithAuthorization(headers, Some(token))[Api.AuthorizationHeader];
            Middleware.SchemeToken(h) == if ' ' in token then None else Some(token)
  {
    var h := Api.BearerValue(token);
    assert h[..6] == "Bearer";
    assert Lower("Bearer") == Middleware.Scheme;
    Middleware.SchemeTokenIff(h, token);
    if Middleware.SchemeToken(h).Some? {
      Middleware.SchemeTokenIff(h, Middleware.SchemeToken(h).value);
    }
  }

  /** An issued token presented as `Bearer <token>` is admitted for the id it was
      issued for while its `exp` lies ahead (or is 0), and refused as invalid afterwards. */
  lemma IssuedTokenChecked(userId: int, issuer: AuthHandlers.Issuer, nowNanos: int,
                           checkNanos: int, inspect: string -> Inspection)
    requires AuthHandlers.GenerateJwt(userId, issuer, nowNanos).Some?
    requires Coherent(issuer.sign, inspect, checkNanos)
    ensures issuer.parseDuration(issuer.expiry).Some?
    ensures var token := AuthHandlers.GenerateJwt(userId, issuer, nowNanos).value;
            var exp := AuthHandlers.ExpiresAt(nowNanos, issuer.parseDuration(issuer.expiry).value);
            Middleware.Check(Api.BearerValue(token), inspect)
            == if exp == 0 || checkNanos < exp * AuthHandlers.NanosPerSecond then Middleware.Admit(userId)
               else Middleware.Reject(Middleware.MsgInvalidToken)
  {
    var d := issuer.parseDuration(issuer.expiry).value;
    var exp := AuthHandlers.ExpiresAt(nowNanos, d);
    var claims := AuthHandlers.IssuedClaims(userId, exp);
    var token := AuthHandlers.GenerateJwt(userId, issuer, nowNanos).value;
    assert issuer.sign(claims) == Some(token);
    var h := Api.BearerValue(token);
    assert Lower(h[..6]) == Middleware.Scheme;
    Middleware.SchemeTokenIff(h, token);
    Middleware.CheckRejections(h, inspect);
    if exp == 0 || checkNanos < exp * AuthHandlers.NanosPerSecond {
      Middleware.CheckAdmitsIff(h, inspect, userId);
    }
  }

  /** In terms of the configured lifetime `d`: a token is honoured up to one second
      short of `d` after issue (the rounding of `exp` down to whole seconds), and
      never from `d` on; so a one-second token checked two seconds later fails.
      The exception is a lifetime ending within the first second of the Unix
      epoch: its `exp` is 0, and the token never expires. */
  lemma TokenLifetime(userId: int, issuer: AuthHandlers.Issuer, nowNanos: int,
                      checkNanos: int, inspect: string -> Inspection)
    requires AuthHandlers.GenerateJwt(userId, issuer, nowNanos).Some?
    requires Coherent(issuer.sign, inspect, checkNanos)
    ensures var d := issuer.parseDuration(issuer.expiry).value;
            var header := Api.BearerValue(AuthHandlers.GenerateJwt(userId, issuer, nowNanos).value);
            && (checkNanos + AuthHandlers.NanosPerSecond <= nowNanos + d ==>
                  Middleware.Check(header, inspect) == Middleware.Admit(userId))
            && (nowNanos + d <= checkNanos && !(0 <= nowNanos + d < AuthHandlers.NanosPerSecond) ==>
                  Middleware.Check(header, inspect) == Middleware.Reject(Middleware.MsgInvalidToken))
            && (0 <= nowNanos + d < AuthHandlers.NanosPerSecond ==>
                  Middleware.Check(header, inspect) == Middleware.Admit(userId))
  {
    IssuedTokenChecked(userId, issuer, nowNanos, checkNanos, inspect);
  }

  /** The identity the gate binds is the one the protected handlers read back. */
  lemma AdmittedContextCarriesId(r: Request, inspect: string -> Inspection, next: Request -> Response)
    ensures var s := Middleware.Serve(r, inspect, next);
            var d := Middleware.Check(HeaderGet(r.headers, Middleware.AuthorizationHeader), inspect);
            s.forwarded.Some? ==> UserHandlers.UserIdFromContext(s.forwarded.value.ctx) == Some(d.userId)
  {
  }

  /** End to end: a token issued for a stored account, attached by the interceptor
      and checked before it expires, opens that account's profile. */
  lemma IssuedTokenOpensProfile(rows: map<int, Accounts.Account>, id: int, issuer: AuthHandlers.Issuer,
                                nowNanos: int, checkNanos: int, inspect: string -> Inspection,
                                headers: map<string, string>, ctx: Context)
    requires id in rows && rows[id].id == id
    requires AuthHandlers.GenerateJwt(id, issuer, nowNanos).Some?
    requires Coherent(issuer.sign, inspect, checkNanos)
    requires checkNanos + AuthHandlers.NanosPerSecond <= nowNanos + issuer.parseDuration(issuer.expiry).value
    ensures var token := AuthHandlers.GenerateJwt(id, issuer, nowNanos).value;
            var r := Request(Api.WithAuthorization(headers, Some(token)), ctx);
            Middleware.Serve(r, inspect, (q: Request) => UserHandlers.GetProfile(rows, q.ctx)).response
            == Response(StatusOK, ProfileJson(id, rows[id].username))
  {
    var token := AuthHandlers.GenerateJwt(id, issuer, nowNanos).value;
    TokenLifetime(id, issuer, nowNanos, checkNanos, inspect);
    var d := issuer.parseDuration(issuer.expiry).value;
    var claims := AuthHandlers.IssuedClaims(id, AuthHandlers.ExpiresAt(nowNanos, d));
    assert issuer.sign(claims) == Some(token);
    assert token != "";
    var r := Request(Api.WithAuthorization(headers, Some(token)), ctx);
    assert HeaderGet(r.headers, Middleware.AuthorizationHeader) == Api.BearerValue(token);
  }

  /** The frontend's expiry test on a millisecond clock agrees with the library's
      on a nanosecond clock read at the same instant. */
  lemma ExpiryTestsAgree(payload: Object, exp: int, nowMs: int)
    requires NumberAt(payload, AuthStore.ExpKey) == Some(exp)
    ensures AuthStore.Unexpired(payload, nowMs) <==> nowMs * 1_000_000 < exp * AuthHandlers.NanosPerSecond
  {
  }
}
