/** Registration, login and token issuance (backend/internal/handlers/auth.go). */
module AuthHandlers {
  import opened Wrappers
  import opened Text
  import opened Json
  import opened Jwt
  import opened Http
  import opened Bcrypt
  import opened Accounts
  import Middleware

  const MinPasswordBytes := 8
  const ExpKey := "exp"
  const NanosPerSecond := 1_000_000_000

  const MsgBadRequest := "Неверный формат запроса"
  const MsgShortPassword := "Пароль должен содержать минимум 8 символов"
  const MsgHashFailed := "Ошибка при обработке пароля"
  const MsgRegisterFailed := "Ошибка регистрации пользователя"
  const MsgNoNewId := "Ошибка получения id нового пользователя"
  const MsgTokenFailed := "Ошибка генерации токена"
  const MsgInvalidCredentials := "Неверные учетные данные"

  /** The decoded JSON request body of both endpoints. */
  datatype Credentials = Credentials(username: string, email: string, password: string)

  /** The token issuer, closed over the configured secret and expiry string:
      `time.ParseDuration` (nanoseconds) and HS256 signing of a claim set. */
  datatype Issuer = Issuer(expiry: string, parseDuration: string -> Option<int>, sign: Claims -> Option<string>)

  /** `time.Now().Add(duration).Unix()`: whole seconds, rounded down. */
  function ExpiresAt(nowNanos: int, duration: int): (exp: int)
    ensures exp * NanosPerSecond <= nowNanos + duration < (exp + 1) * NanosPerSecond
  {
    (nowNanos + duration) / NanosPerSecond
  }

  /** The claim set of every issued token: `user_id` and `exp`, nothing else. */
  function IssuedClaims(userId: int, exp: int): (c: Claims)
    ensures c.MapClaims? && c.fields.Keys == {Middleware.UserIdKey, ExpKey}
    ensures Middleware.HasUserId(c, userId)
    ensures NumberAt(c.fields, ExpKey) == Some(exp)
  {
    MapClaims(map[Middleware.UserIdKey := Number(userId), ExpKey := Number(exp)])
  }

  /** `generateJWT`: no token when the expiry string does not parse or signing
      fails; otherwise the signature over the claims for `userId` expiring
      `duration` after `nowNanos`. */
  function GenerateJwt(userId: int, issuer: Issuer, nowNanos: int): (token: Option<string>)
    ensures issuer.parseDuration(issuer.expiry).None? ==> token.None?
    ensures issuer.parseDuration(issuer.expiry).Some? ==>
              token == issuer.sign(IssuedClaims(userId, ExpiresAt(nowNanos, issuer.parseDuration(issuer.expiry).value)))
  {
    match issuer.parseDuration(issuer.expiry)
    case None => None
    case Some(duration) => issuer.sign(IssuedClaims(userId, ExpiresAt(nowNanos, duration)))
  }

  /** The tail of Register once the row is in: the id lookup, then the token. */
  function RegisterReply(id: int, lastIdFault: bool, issuer: Issuer, nowNanos: int): (resp: Response)
    ensures resp.status == StatusOK <==> !lastIdFault && GenerateJwt(id, issuer, nowNanos).Some?
    ensures resp.status == StatusOK ==> resp.body == TokenJson(GenerateJwt(id, issuer, nowNanos).value)
    ensures resp.status != StatusOK ==> resp.status == StatusInternalServerError
  {
    if lastIdFault then Error(StatusInternalServerError, MsgNoNewId)
    else match GenerateJwt(id, issuer, nowNanos)
      case None => Error(StatusInternalServerError, MsgTokenFailed)
      case Some(token) => Response(StatusOK, TokenJson(token))
  }

  /** `Register`: body, password length in bytes, hash, insert, new id, token. Every
      failure before the insert leaves the table as it was; a successful insert adds
      exactly one row, even when the id lookup or the token fails afterwards. */
  method Register(db: UserTable, body: Option<Credentials>, hasher: Hasher,
                  insertFault: bool, lastIdFault: bool, issuer: Issuer, nowNanos: int)
    returns (resp: Response)
    requires db.Valid()
    modifies db
    ensures db.Valid()
    ensures body.None? ==> resp == Error(StatusBadRequest, MsgBadRequest) && db.rows == old(db.rows)
    ensures body.Some? ==>
      var c := body.value;
      && (ByteLength(c.password) < MinPasswordBytes ==>
            resp == Error(StatusBadRequest, MsgShortPassword) && db.rows == old(db.rows))
      && (ByteLength(c.password) >= MinPasswordBytes && hasher.hash(c.password).None? ==>
            resp == Error(StatusInternalServerError, MsgHashFailed) && db.rows == old(db.rows))
      && (ByteLength(c.password) >= MinPasswordBytes && hasher.hash(c.password).Some?
          && (insertFault || Taken(old(db.rows), c.username, c.email)) ==>
            resp == Error(StatusInternalServerError, MsgRegisterFailed) && db.rows == old(db.rows))
      && (ByteLength(c.password) >= MinPasswordBytes && hasher.hash(c.password).Some?
          && !insertFault && !Taken(old(db.rows), c.username, c.email) ==>
            exists id ::
              && id !in old(db.rows)
              && db.rows == old(db.rows)[id := Account(id, c.username, c.email, hasher.hash(c.password).value)]
              && resp == RegisterReply(id, lastIdFault, issuer, nowNanos))
    ensures resp.status == StatusOK ==> |db.rows| == |old(db.rows)| + 1
  {
    if body.None? {
      return Error(StatusBadRequest, MsgBadRequest);
    }
    var c := body.value;
    if ByteLength(c.password) < MinPasswordBytes {
      return Error(StatusBadRequest, MsgShortPassword);
    }
    var hashed := hasher.hash(c.password);
    if hashed.None? {
      return Error(StatusInternalServerError, MsgHashFailed);
    }
    var inserted := db.Insert(c.username, c.email, hashed.value, insertFault);
    if inserted.None? {
      return Error(StatusInternalServerError, MsgRegisterFailed);
    }
    var id := inserted.value;
    if lastIdFault {
      return Error(StatusInternalServerError, MsgNoNewId);
    }
    var token := GenerateJwt(id, issuer, nowNanos);
    if token.None? {
      return Error(StatusInternalServerError, MsgTokenFailed);
    }
    resp := Response(StatusOK, TokenJson(token.value));
    assert resp == RegisterReply(id, lastIdFault, issuer, nowNanos);
  }

  /** `Login`: the account is looked up by email alone; an unknown email and a wrong
      password give the same 401, and a match gives a token for the stored id
      together with the stored username. */
  function Login(rows: map<int, Account>, body: Option<Credentials>, hasher: Hasher,
                 issuer: Issuer, nowNanos: int): (resp: Response)
    requires EmailsUnique(rows)
    ensures body.None? ==> resp == Error(StatusBadRequest, MsgBadRequest)
    ensures body.Some? && (forall id :: id in rows ==> rows[id].email != body.value.email) ==>
              resp == Error(StatusUnauthorized, MsgInvalidCredentials)
    ensures body.Some? ==> forall id :: id in rows && rows[id].email == body.value.email ==>
              if !hasher.verify(rows[id].password, body.value.password)
              then resp == Error(StatusUnauthorized, MsgInvalidCredentials)
              else resp == LoginReply(GenerateJwt(rows[id].id, issuer, nowNanos), rows[id].username)
  {
    if body.None? then Error(StatusBadRequest, MsgBadRequest)
    else
      var c := body.value;
      if !exists id :: id in rows && rows[id].email == c.email then Error(StatusUnauthorized, MsgInvalidCredentials)
      else
        var id :| id in rows && rows[id].email == c.email;
        var account := rows[id];
        if !hasher.verify(account.password, c.password) then Error(StatusUnauthorized, MsgInvalidCredentials)
        else LoginReply(GenerateJwt(account.id, issuer, nowNanos), account.username)
  }

  /** The successful end of Login: the token and the username, or 500 without a token. */
  function LoginReply(token: Option<string>, username: string): (resp: Response)
    ensures resp.status == StatusOK <==> token.Some?
    ensures token.Some? ==> resp.body == LoginJson(token.value, username)
    ensures token.None? ==> resp == Error(StatusInternalServerError, MsgTokenFailed)
  {
    match token
    case None => Error(StatusInternalServerError, MsgTokenFailed)
    case Some(t) => Response(StatusOK, LoginJson(t, username))
  }

  /** An account just registered can log in with its email and password, and the
      token it gets is issued for its own id. */
  lemma RegisteredAccountLogsIn(rows: map<int, Account>, id: int, c: Credentials, hash: string,
                                anyName: string, hasher: Hasher, issuer: Issuer, nowNanos: int)
    requires Sound(hasher) && hasher.hash(c.password) == Some(hash)
    requires EmailsUnique(rows[id := Account(id, c.username, c.email, hash)])
    ensures Login(rows[id := Account(id, c.username, c.email, hash)], Some(Credentials(anyName, c.email, c.password)),
                  hasher, issuer, nowNanos)
            == LoginReply(GenerateJwt(id, issuer, nowNanos), c.username)
  {
    var rows' := rows[id := Account(id, c.username, c.email, hash)];
    assert id in rows' && rows'[id].email == c.email;
    assert hasher.verify(hash, c.password);
  }
}
