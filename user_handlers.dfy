/** The protected handlers behind the gate (backend/internal/handlers/user.go). */
module UserHandlers {
  import opened Wrappers
  import opened Text
  import opened Http
  import opened Bcrypt
  import opened Accounts
  import AuthHandlers

  const ContextKey := "user_id"
  const MinNewPasswordBytes := 8

  const MsgBadRequest := AuthHandlers.MsgBadRequest  // the same text as in auth.go
  const MsgNoUserId := "Не удалось получить идентификатор пользователя"
  const MsgUserNotFound := "Пользователь не найден"
  const MsgWrongOldPassword := "Неверный старый пароль"
  const MsgShortNewPassword := "Новый пароль должен содержать минимум 8 символов"
  const MsgNewHashFailed := "Ошибка обработки нового пароля"
  const MsgUpdateFailed := "Ошибка обновления пароля"
  const MsgPasswordChanged := "Пароль успешно обновлен"

  /** The decoded JSON body of the password change. */
  datatype PasswordChange = PasswordChange(oldPassword: string, newPassword: string)

  /** `getUserIDFromContext`: the context value under "user_id" when it is an `int`;
      an error when it is absent or of another type. */
  function UserIdFromContext(ctx: Context): (r: Option<int>)
    ensures r.Some? <==> ContextKey in ctx && ctx[ContextKey].IntValue?
    ensures r.Some? ==> ctx[ContextKey] == IntValue(r.value)
  {
    if ContextKey !in ctx then None
    else match ctx[ContextKey]
      case IntValue(n) => Some(n)
      case OtherValue => None
  }

  /** `GetProfile`: 401 without an identity in the context, 404 when that id has no
      row, and otherwise the row's id and username. */
  function GetProfile(rows: map<int, Account>, ctx: Context): (resp: Response)
    ensures UserIdFromContext(ctx).None? ==> resp == Error(StatusUnauthorized, MsgNoUserId)
    ensures forall id :: UserIdFromContext(ctx) == Some(id) && id !in rows ==>
              resp == Error(StatusNotFound, MsgUserNotFound)
    ensures forall id :: UserIdFromContext(ctx) == Some(id) && id in rows ==>
              resp == Response(StatusOK, ProfileJson(rows[id].id, rows[id].username))
  {
    match UserIdFromContext(ctx)
    case None => Error(StatusUnauthorized, MsgNoUserId)
    case Some(id) =>
      if id !in rows then Error(StatusNotFound, MsgUserNotFound)
      else Response(StatusOK, ProfileJson(rows[id].id, rows[id].username))
  }

  /** `ChangePassword`: identity (401), body (400), row (404), old password (401),
      new password length in bytes (400), hash (500), UPDATE (500). Only a call
      that gets through every check changes anything, and then only the password
      of the caller's own row. */
  method ChangePassword(db: UserTable, ctx: Context, body: Option<PasswordChange>,
                        hasher: Hasher, updateFault: bool)
    returns (resp: Response)
    requires db.Valid()
    modifies db
    ensures db.Valid()
    ensures UserIdFromContext(ctx).None? ==> resp == Error(StatusUnauthorized, MsgNoUserId)
    ensures UserIdFromContext(ctx).Some? ==>
      var id := UserIdFromContext(ctx).value;
      && (body.None? ==> resp == Error(StatusBadRequest, MsgBadRequest))
      && (body.Some? && id !in old(db.rows) ==> resp == Error(StatusNotFound, MsgUserNotFound))
      && (body.Some? && id in old(db.rows) ==>
            var req, stored := body.value, old(db.rows)[id].password;
            && (!hasher.verify(stored, req.oldPassword) ==>
                  resp == Error(StatusUnauthorized, MsgWrongOldPassword))
            && (hasher.verify(stored, req.oldPassword) && ByteLength(req.newPassword) < MinNewPasswordBytes ==>
                  resp == Error(StatusBadRequest, MsgShortNewPassword))
            && (hasher.verify(stored, req.oldPassword) && ByteLength(req.newPassword) >= MinNewPasswordBytes ==>
                  match hasher.hash(req.newPassword)
                  case None => resp == Error(StatusInternalServerError, MsgNewHashFailed)
                  case Some(h) =>
                    if updateFault then resp == Error(StatusInternalServerError, MsgUpdateFailed)
                    else resp == Response(StatusOK, PlainText(MsgPasswordChanged))
                         && db.rows == old(db.rows)[id := old(db.rows)[id].(password := h)]))
    ensures resp.status != StatusOK ==> db.rows == old(db.rows)
    ensures resp.status == StatusOK ==>
              && UserIdFromContext(ctx).Some? && body.Some?
              && UserIdFromContext(ctx).value in db.rows
              && (Sound(hasher) ==> hasher.verify(db.rows[UserIdFromContext(ctx).value].password, body.value.newPassword))
  {
    var userId := UserIdFromContext(ctx);
    if userId.None? {
      return Error(StatusUnauthorized, MsgNoUserId);
    }
    var id := userId.value;
    if body.None? {
      return Error(StatusBadRequest, MsgBadRequest);
    }
    var req := body.value;
    if id !in db.rows {
      return Error(StatusNotFound, MsgUserNotFound);
    }
    var stored := db.rows[id].password;
    if !hasher.verify(stored, req.oldPassword) {
      return Error(StatusUnauthorized, MsgWrongOldPassword);
    }
    if ByteLength(req.newPassword) < MinNewPasswordBytes {
      return Error(StatusBadRequest, MsgShortNewPassword);
    }
    var hashed := hasher.hash(req.newPassword);
    if hashed.None? {
      return Error(StatusInternalServerError, MsgNewHashFailed);
    }
    var ok := db.SetPassword(id, hashed.value, updateFault);
    if !ok {
      return Error(StatusInternalServerError, MsgUpdateFailed);
    }
    resp := Response(StatusOK, PlainText(MsgPasswordChanged));
  }

  /** After a password change, logging in with the new password succeeds for the
      same account, and the old one fails whenever the new hash does not also
      verify it. */
  lemma ChangedPasswordLogsIn(rows: map<int, Account>, id: int, oldPassword: string, newPassword: string,
                              hash: string, anyName: string, hasher: Hasher,
                              issuer: AuthHandlers.Issuer, nowNanos: int)
    requires EmailsUnique(rows) && id in rows
    requires Sound(hasher) && hasher.hash(newPassword) == Some(hash)
    ensures var rows' := rows[id := rows[id].(password := hash)];
            && EmailsUnique(rows')
            && AuthHandlers.Login(rows', Some(AuthHandlers.Credentials(anyName, rows[id].email, newPassword)),
                                  hasher, issuer, nowNanos)
               == AuthHandlers.LoginReply(AuthHandlers.GenerateJwt(rows[id].id, issuer, nowNanos), rows[id].username)
            && (!hasher.verify(hash, oldPassword) ==>
                  AuthHandlers.Login(rows', Some(AuthHandlers.Credentials(anyName, rows[id].email, oldPassword)),
                                     hasher, issuer, nowNanos)
                  == Error(StatusUnauthorized, AuthHandlers.MsgInvalidCredentials))
  {
    var rows' := rows[id := rows[id].(password := hash)];
    assert forall k :: k in rows' ==> rows'[k].email == rows[k].email;
    assert id in rows' && rows'[id].email == rows[id].email;
    assert hasher.verify(hash, newPassword);
  }
}
