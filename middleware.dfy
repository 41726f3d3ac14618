/** The authorization gate in front of the protected routes
    (backend/internal/middleware/auth.go): the `Authorization: Bearer` scheme of
    section 2.1 of RFC 6750. The scheme check is stricter than that grammar only
    about spacing (exactly one space, none after it); it accepts an empty token
    and any characters outside `b64token`, and leaves those to the JWT library. */
module Middleware {
  import opened Wrappers
  import opened Text
  import opened Json
  import opened Jwt
  import opened Http

  const AuthorizationHeader := "Authorization"
  const Scheme := "bearer"
  const UserIdKey := "user_id"

  const MsgMissingToken := "Отсутствует токен авторизации"
  const MsgBadFormat := "Неверный формат токена"
  const MsgInvalidToken := "Неверный или просроченный токен"
  const MsgBadClaims := "Неверные данные токена"

  /** The gate's verdict on one request. */
  datatype Decision = Admit(userId: int) | Reject(message: string)

  /** The key function: a key is handed out only for the HMAC family, so every
      asymmetric family and the unsecured `none` method are refused. */
  function KeyFunc(m: SigningMethod): (ok: bool)
    ensures ok <==> !(m.RSA? || m.RSAPSS? || m.ECDSA? || m.EdDSA? || m.Unsecured?)
  {
    m.HMAC?
  }

  /** The scheme check: split the header on single spaces, demand exactly two
      pieces with the first equal to "bearer" once lower-cased, and take the second. */
  function SchemeToken(header: string): (t: Option<string>)
    ensures t.Some? ==> ' ' !in t.value
  {
    var parts := Split(header);
    SplitPiecesHaveNoSpace(header);
    if |parts| != 2 || Lower(parts[0]) != Scheme then None else Some(parts[1])
  }

  /** The headers the scheme check accepts, described without splitting: six
      characters spelling "bearer" in any case, one space, and a space-free token. */
  predicate BearerForm(header: string, token: string) {
    && |header| == 7 + |token|
    && Lower(header[..6]) == Scheme
    && header[6] == ' '
    && header[7..] == token
    && ' ' !in token
  }

  /** The scheme check accepts exactly the bearer form, and the token it extracts
      is exactly what follows the single space. */
  lemma SchemeTokenIff(header: string, token: string)
    ensures SchemeToken(header) == Some(token) <==> BearerForm(header, token)
  {
    var parts := Split(header);
    if SchemeToken(header) == Some(token) {
      JoinSplit(header);
      SplitPiecesHaveNoSpace(header);
      assert Join(parts) == parts[0] + " " + Join(parts[1..]);
      assert header == parts[0] + " " + parts[1];
      assert |parts[0]| == 6;
      assert header[..6] == parts[0];
      assert header[7..] == parts[1];
    }
    if BearerForm(header, token) {
      var p := header[..6];
      LowerKeepsSpaces(p);
      assert ' ' !in Scheme;
      assert header == p + " " + token;
      SplitPair(p, token);
    }
  }

  /** The scheme check depends on the case of the scheme word only through its
      lower-case form: "bearer T" and "BEARER T" both hand `T` on. */
  lemma SchemeCaseInsensitive(p: string, q: string, token: string)
    requires Lower(p) == Scheme && Lower(q) == Scheme && ' ' !in token
    ensures SchemeToken(p + " " + token) == Some(token)
    ensures SchemeToken(q + " " + token) == SchemeToken(p + " " + token)
  {
    var hp, hq := p + " " + token, q + " " + token;
    assert |p| == 6 && |q| == 6;
    assert hp[..6] == p && hp[7..] == token && hp[6] == ' ';
    assert hq[..6] == q && hq[7..] == token && hq[6] == ' ';
    SchemeTokenIff(hp, token);
    SchemeTokenIff(hq, token);
  }

  /** The body of the gate: the early-return chain of the middleware. */
  function Check(header: string, inspect: string -> Inspection): (d: Decision)
    ensures d.Reject? ==> d.message in {MsgMissingToken, MsgBadFormat, MsgInvalidToken, MsgBadClaims}
    ensures d.Reject? && d.message == MsgMissingToken <==> header == ""
  {
    if header == "" then Reject(MsgMissingToken)
    else match SchemeToken(header)
      case None => Reject(MsgBadFormat)
      case Some(token) =>
        match Parse(inspect(token), KeyFunc)
        case Err(_) => Reject(MsgInvalidToken)
        case Ok(claims) =>
          match claims
          case OtherClaims => Reject(MsgBadClaims)
          case MapClaims(fields) =>
            match NumberAt(fields, UserIdKey)
            case None => Reject(MsgBadClaims)
            case Some(id) => Admit(id)
  }

  /** What the library must report for the gate to accept a token: a decoded
      token of the HMAC family, with its signature and its time claims in order. */
  predicate Accepts(i: Inspection) {
    i.Decoded? && i.alg.HMAC? && i.signatureMatches && i.claimsValid
  }

  /** The claims are a claim map whose `user_id` is the number `id`. */
  predicate HasUserId(c: Claims, id: int) {
    c.MapClaims? && UserIdKey in c.fields && c.fields[UserIdKey] == Number(id)
  }

  /** The gate admits exactly the requests whose header is in bearer form, whose
      token the library accepts, and whose claims carry a numeric `user_id`;
      the admitted identity is that number. */
  lemma CheckAdmitsIff(header: string, inspect: string -> Inspection, id: int)
    ensures Check(header, inspect) == Admit(id) <==>
              && |header| >= 7
              && BearerForm(header, header[7..])
              && Accepts(inspect(header[7..]))
              && HasUserId(inspect(header[7..]).claims, id)
  {
    if |header| >= 7 {
      SchemeTokenIff(header, header[7..]);
    }
    if Check(header, inspect).Admit? {
      var t := SchemeToken(header).value;
      SchemeTokenIff(header, t);
    }
  }

  /** Each way of failing, stated on the raw input, and the one message it gives. */
  lemma CheckRejections(header: string, inspect: string -> Inspection)
    ensures header == "" ==> Check(header, inspect) == Reject(MsgMissingToken)
    ensures header != "" && !(|header| >= 7 && BearerForm(header, header[7..])) ==>
              Check(header, inspect) == Reject(MsgBadFormat)
    ensures |header| >= 7 && BearerForm(header, header[7..]) && !Accepts(inspect(header[7..])) ==>
              Check(header, inspect) == Reject(MsgInvalidToken)
    ensures |header| >= 7 && BearerForm(header, header[7..]) && Accepts(inspect(header[7..]))
            && (forall id :: !HasUserId(inspect(header[7..]).claims, id)) ==>
              Check(header, inspect) == Reject(MsgBadClaims)
  {
    if |header| >= 7 {
      SchemeTokenIff(header, header[7..]);
    }
    if SchemeToken(header).Some? {
      SchemeTokenIff(header, SchemeToken(header).value);
      var t := SchemeToken(header).value;
      var i := inspect(t);
      if Accepts(i) && i.claims.MapClaims? && NumberAt(i.claims.fields, UserIdKey).Some? {
        assert HasUserId(i.claims, NumberAt(i.claims.fields, UserIdKey).value);
      }
    }
  }

  /** Every failure inside the library (undecodable, non-HMAC method, bad
      signature, expired) is reported to the client identically. */
  lemma LibraryFailuresLookAlike(header: string, inspect: string -> Inspection, token: string)
    requires SchemeToken(header) == Some(token)
    requires Parse(inspect(token), KeyFunc).Err?
    ensures Check(header, inspect) == Reject(MsgInvalidToken)
  {
  }

  /** The outcome of serving one request through the gate: the response, and the
      request the protected handler was called with, if it was called at all. */
  datatype Served = Served(response: Response, forwarded: Option<Request>)

  /** The middleware wrapped around the protected handler `next`. */
  function Serve(r: Request, inspect: string -> Inspection, next: Request -> Response): (s: Served)
    ensures var d := Check(HeaderGet(r.headers, AuthorizationHeader), inspect);
            && (s.forwarded.Some? <==> d.Admit?)
            && (d.Reject? ==> s.response == Error(StatusUnauthorized, d.message))
            && (d.Admit? ==> s.forwarded == Some(r.(ctx := r.ctx[UserIdKey := IntValue(d.userId)]))
                             && s.response == next(s.forwarded.value))
  {
    match Check(HeaderGet(r.headers, AuthorizationHeader), inspect)
    case Reject(message) => Served(Error(StatusUnauthorized, message), None)
    case Admit(id) =>
      var r' := r.(ctx := r.ctx[UserIdKey := IntValue(id)]);
      Served(next(r'), Some(r'))
  }

  /** Three malformed headers: another scheme, a third piece, and a double space
      before the token. */
  lemma MalformedHeadersRejected(inspect: string -> Inspection)
    ensures Check("Basic xyz", inspect) == Reject(MsgBadFormat)
    ensures Check("Bearer a b", inspect) == Reject(MsgBadFormat)
    ensures Check("Bearer  x", inspect) == Reject(MsgBadFormat)
  {
    CheckRejections("Basic xyz", inspect);
    CheckRejections("Bearer a b", inspect);
    CheckRejections("Bearer  x", inspect);
    var h1, h2, h3 := "Basic xyz", "Bearer a b", "Bearer  x";
    assert Lower(h1[..6])[1] == 'a';
    assert h2[7..][1] == ' ';
    assert h3[7..][0] == ' ';
  }

  /** A header with the scheme and its space but nothing after them passes the
      scheme check with an empty token, which then goes to the library. */
  lemma EmptyTokenReachesLibrary(inspect: string -> Inspection)
    ensures SchemeToken("Bearer ") == Some("")
    ensures Check("Bearer ", inspect) != Reject(MsgBadFormat)
  {
    var h := "Bearer ";
    assert Lower(h[..6]) == Scheme;
    SchemeTokenIff(h, "");
    CheckRejections(h, inspect);
  }
}
