/** The parts of Go's net/http the backend core touches: request headers, the
    per-request context, and the response a handler writes. */
module Http {

  /** A value stored in a request context: an `int`, or anything of another type. */
  datatype CtxValue = IntValue(n: int) | OtherValue

  /** A request context, keyed by plain strings as `context.WithValue` is used here. */
  type Context = map<string, CtxValue>

  /** An incoming request: its headers under canonical names, and its context. */
  datatype Request = Request(headers: map<string, string>, ctx: Context)

  /** `Header.Get`: the header's value, or the empty string when it is absent. */
  function HeaderGet(headers: map<string, string>, name: string): (v: string)
    ensures name in headers ==> v == headers[name]
    ensures name !in headers ==> v == ""
  {
    if name in headers then headers[name] else ""
  }

  /** What a handler writes as the response body. */
  datatype Body =
    | ErrorText(message: string)              // `http.Error`: the message and a newline
    | PlainText(text: string)                 // a raw `w.Write`
    | TokenJson(token: string)                // {"token": ...}
    | LoginJson(token: string, username: string)  // {"token": ..., "username": ...}
    | ProfileJson(id: int, username: string)  // {"id": ..., "username": ...}

  /** A complete response: status code and body. */
  datatype Response = Response(status: int, body: Body)

  const StatusOK := 200
  const StatusBadRequest := 400
  const StatusUnauthorized := 401
  const StatusNotFound := 404
  const StatusInternalServerError := 500

  /** `http.Error(w, message, status)`. */
  function Error(status: int, message: string): (r: Response)
    ensures r.status == status && r.body.ErrorText? && r.body.message == message
  {
    Response(status, ErrorText(message))
  }
}
