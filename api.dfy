/** The request interceptor of the frontend's HTTP client (frontend/src/services/api.js). */
module Api {
  import opened Wrappers
  import opened AuthStore

  const AuthorizationHeader := "Authorization"

  /** The header value the interceptor writes: `Bearer ${token}`. */
  function BearerValue(token: string): (v: string)
    ensures |v| == 7 + |token| && v[..7] == "Bearer " && v[7..] == token
  {
    "Bearer " + token
  }

  /** The headers after the interceptor: with a truthy token, `Authorization`
      holds the bearer value; every other header is untouched, and with a falsy
      token nothing changes at all. */
  function WithAuthorization(headers: map<string, string>, token: Option<string>): (r: map<string, string>)
    ensures Truthy(token) ==> AuthorizationHeader in r && r[AuthorizationHeader] == BearerValue(token.value)
    ensures !Truthy(token) ==> r == headers
    ensures forall k :: k != AuthorizationHeader ==> (k in r <==> k in headers)
    ensures forall k :: k in headers && k != AuthorizationHeader ==> r[k] == headers[k]
  {
    if Truthy(token) then headers[AuthorizationHeader := BearerValue(token.value)] else headers
  }

  /** The mutable request configuration axios hands to the interceptor. */
  class RequestConfig {
    var headers: map<string, string>

    constructor (headers: map<string, string>)
      ensures this.headers == headers
    {
      this.headers := headers;
    }
  }

  /** The interceptor: decorates the headers in place and returns the same object. */
  method RequestInterceptor(config: RequestConfig, store: Store) returns (result: RequestConfig)
    modifies config
    ensures result == config
    ensures config.headers == WithAuthorization(old(config.headers), store.token)
  {
    if Truthy(store.token) {
      config.headers := config.headers[AuthorizationHeader := BearerValue(store.token.value)];
    }
    return config;
  }
}
