/**
 * The credential service: `handleLogin` and `handlePasswordChange`. Each
 * handler is a method over the user table; the function of the same name
 * without `Handle` states, on plain values, the response it sends and the
 * table it leaves, and the lemmas below state the service's promises about
 * those functions.
 */
module CredentialService {
  import opened Wrappers
  import opened JsText
  import opened JsValues
  import opened UserStore
  import opened Passwords
  import opened Http
  import Hex
  import RequestBody

  const LoginMissing: string := "Укажите логин и пароль"
  const LoginInvalid: string := "Неверный логин или пароль"
  const LoginUnavailable: string := "Сервер авторизации недоступен"
  const ChangeMissing: string := "Укажите все необходимые данные"
  const ChangeTooShort: string := "Новый пароль должен содержать минимум 8 символов"
  const ChangeWrongCurrent: string := "Текущий пароль указан неверно"
  const ChangeDone: string := "Пароль обновлен"
  const ChangeFailed: string := "Не удалось обработать запрос"

  /** The display name used when a row has no full_name. */
  const PlaceholderName: string := "Оператор производственного холдинга"

  const MinPasswordLength: nat := 8

  /** The only fields a user view carries. */
  const UserViewKeys: set<string> := {"id", "name", "login", "lastLoginAt"}

  /** What a handler produces: the response and the table afterwards. */
  datatype Outcome = Outcome(response: Response, rows: seq<UserRow>)

  /** The catch blocks' status choice for a thrown error. */
  function ErrorStatus(f: Fault): (status: int)
    ensures status == 413 <==> f == PayloadTooLarge
    ensures status == 400 <==> f == InvalidJson
    ensures status == 500 <==> f == DbQueryFailed || f == TypeError
    ensures status in {400, 413, 500}
  {
    match f
    case PayloadTooLarge => 413
    case InvalidJson => 400
    case DbQueryFailed => 500
    case TypeError => 500
  }

  /** `normalizeUser(record)`: the public view of a row. */
  function NormalizeUser(record: UserRow): (view: Json)
    ensures view.JObj? && view.fields.Keys == UserViewKeys
    ensures view.fields["id"] == JNum(record.id as real)
    ensures view.fields["login"] == JStr(record.login)
    ensures view.fields["name"] == JStr(
      if record.fullName.Some? && record.fullName.value != [] then record.fullName.value else PlaceholderName)
    ensures view.fields["lastLoginAt"] == if record.lastLoginAt.Some? then JStr(record.lastLoginAt.value) else JNull
  {
    var name := if record.fullName.Some? && record.fullName.value != [] then record.fullName.value else PlaceholderName;
    JObj(map[
      "id" := JNum(record.id as real),
      "name" := JStr(name),
      "login" := JStr(record.login),
      "lastLoginAt" := match record.lastLoginAt case None => JNull case Some(t) => JStr(t)
    ])
  }

  /**
   * Every answer either handler sends: the envelope under the fixed headers,
   * carrying a `message` or a `user` and nothing more, where a user has the
   * four view fields only (so never `password_hash`).
   */
  predicate SafeResponse(r: Response)
  {
    && r.headers == JsonHeaders
    && r.payload.JObj?
    && Enveloped(r)
    && r.payload.fields.Keys <= {"ok", "message", "user"}
    && ("message" in r.payload.fields || "user" in r.payload.fields)
    && ("user" in r.payload.fields ==>
          r.payload.fields["user"].JObj? && r.payload.fields["user"].fields.Keys == UserViewKeys)
  }

  // ---------------------------------------------------------------- login

  /** The login request's fields after `(body.login || '').trim()` and `body.password || ''`. */
  datatype LoginInput = LoginInput(login: string, password: Json)

  /** Reads the login fields; property access on null and `trim` on a non-string throw TypeError. */
  function ReadLoginInput(body: Json): (r: Result<LoginInput, Fault>)
    ensures r.Err? <==> body == JNull || !Or(Get(body, "login"), JStr("")).JStr?
    ensures r.Ok? ==> Trimmed(r.value.login)
    ensures r.Ok? ==> !Truthy(Get(body, "password")) ==> r.value.password == JStr("")
    ensures r.Ok? && Truthy(Get(body, "password")) ==> r.value.password == Get(body, "password").value
    ensures r.Ok? && !Truthy(Get(body, "login")) ==> r.value.login == []
    ensures r.Ok? && Truthy(Get(body, "login")) ==>
      Get(body, "login").value.JStr? && r.value.login == Trim(Get(body, "login").value.s)
  {
    if body.JNull? then Err(TypeError)
    else
      var login := Or(Get(body, "login"), JStr(""));
      if !login.JStr? then Err(TypeError)
      else Ok(LoginInput(Trim(login.s), Or(Get(body, "password"), JStr(""))))
  }

  /** The login catch block's answer to a thrown error. */
  function LoginFault(f: Fault): (r: Response)
    ensures SafeResponse(r) && r.status == ErrorStatus(f)
    ensures r.payload.fields == map["ok" := JBool(false), "message" := JStr(LoginUnavailable)]
  {
    Failure(ErrorStatus(f), LoginUnavailable)
  }

  /** The login outcome for a parsed (or rejected) body; `now` is the clock's ISO timestamp. */
  function Login(rows: seq<UserRow>, online: bool, body: Result<Json, Fault>, now: string,
                 sha256: string -> seq<Hex.Byte>): (o: Outcome)
    ensures SafeResponse(o.response)
    ensures o.response.status in {200, 400, 401, 413, 500}
    ensures o.response.status == 200 <==> "user" in o.response.payload.fields
    ensures o.response.status != 200 ==> o.rows == rows
  {
    match body
    case Err(f) => Outcome(LoginFault(f), rows)
    case Ok(b) =>
      match ReadLoginInput(b)
      case Err(f) => Outcome(LoginFault(f), rows)
      case Ok(input) =>
        if input.login == [] || !Truthy(Some(input.password)) then
          Outcome(Failure(400, LoginMissing), rows)
        else if !online || '\0' in input.login then
          // the store is down, or the statement cannot be passed to sqlite3
          Outcome(LoginFault(DbQueryFailed), rows)
        else
          match FindByLogin(rows, input.login)
          case None => Outcome(Failure(401, LoginInvalid), rows)
          case Some(record) =>
            match VerifyPassword(sha256, record, input.password)
            case Err(f) => Outcome(LoginFault(f), rows)
            case Ok(false) => Outcome(Failure(401, LoginInvalid), rows)
            case Ok(true) =>
              var user := NormalizeUser(record.(lastLoginAt := Some(now)));
              Outcome(SendJson(200, JObj(map["ok" := JBool(true), "user" := user])),
                      SetLastLogin(rows, record.id, now))
  }

  /** `handleLogin(req, res)`. */
  method HandleLogin(users: UserTable, chunks: seq<string>, parse: string -> Option<Json>, now: string,
                     sha256: string -> seq<Hex.Byte>) returns (response: Response)
    requires users.Valid()
    requires '\0' !in now  // `toISOString` writes digits and `-:.TZ` only
    modifies users
    ensures users.Valid()
    ensures Outcome(response, users.rows) == Login(old(users.rows), users.online, RequestBody.BodyValue(chunks, parse), now, sha256)
  {
    var body := RequestBody.ReceiveBody(chunks, parse);
    if body.Err? {
      return LoginFault(body.error);
    }
    var input := ReadLoginInput(body.value);
    if input.Err? {
      return LoginFault(input.error);
    }
    var login, password := input.value.login, input.value.password;
    if login == [] || !Truthy(Some(password)) {
      return Failure(400, LoginMissing);
    }
    var found := users.ReadUserByLogin(login);
    if found.Err? {
      return LoginFault(found.error);
    }
    if found.value.None? {
      return Failure(401, LoginInvalid);
    }
    var record := found.value.value;
    var verified := VerifyPassword(sha256, record, password);
    if verified.Err? {
      return LoginFault(verified.error);
    }
    if !verified.value {
      return Failure(401, LoginInvalid);
    }
    var written := users.UpdateLastLogin(record.id, now);
    assert written;  // the lookup succeeded, so the store answers, and the timestamp passes
    response := SendJson(200, JObj(map["ok" := JBool(true), "user" := NormalizeUser(record.(lastLoginAt := Some(now)))]));
  }

  /** The body a client sends to log in. */
  function LoginBody(login: string, password: string): Json
  {
    JObj(map["login" := JStr(login), "password" := JStr(password)])
  }

  /** What the handler reads out of a login body. */
  lemma ReadLoginBody(login: string, password: string)
    ensures ReadLoginInput(LoginBody(login, password)) == Ok(LoginInput(Trim(login), JStr(password)))
  {
    var b := LoginBody(login, password);
    assert "login" != "password" by { assert "login"[0] != "password"[0]; }
    assert Get(b, "login") == Some(JStr(login));
    assert Get(b, "password") == Some(JStr(password));
  }

  /** A blank login or an empty password is a 400 whatever the store holds, and the store is untouched. */
  lemma LoginNeedsBothFields(rows: seq<UserRow>, online: bool, b: Json, now: string, sha256: string -> seq<Hex.Byte>)
    requires ReadLoginInput(b).Ok?
    requires ReadLoginInput(b).value.login == [] || !Truthy(Some(ReadLoginInput(b).value.password))
    ensures Login(rows, online, Ok(b), now, sha256) == Outcome(Failure(400, LoginMissing), rows)
  {
  }

  /** An unknown login and a wrong password get one and the same 401 response, and nothing is written. */
  lemma LoginFailuresAlike(rows: seq<UserRow>, b: Json, now: string, sha256: string -> seq<Hex.Byte>)
    requires ReadLoginInput(b).Ok?
    requires var input := ReadLoginInput(b).value;
      input.login != [] && Truthy(Some(input.password)) && '\0' !in input.login
      && (FindByLogin(rows, input.login).None?
          || VerifyPassword(sha256, FindByLogin(rows, input.login).value, input.password) == Ok(false))
    ensures Login(rows, true, Ok(b), now, sha256) == Outcome(Failure(401, LoginInvalid), rows)
  {
  }

  /** A complete request while the store cannot be queried is a 500, and nothing is written. */
  lemma LoginStoreDown(rows: seq<UserRow>, b: Json, now: string, sha256: string -> seq<Hex.Byte>)
    requires ReadLoginInput(b).Ok?
    requires ReadLoginInput(b).value.login != [] && Truthy(Some(ReadLoginInput(b).value.password))
    ensures Login(rows, false, Ok(b), now, sha256) == Outcome(Failure(500, LoginUnavailable), rows)
  {
  }

  /** A body that parses to null throws at the property access: a 500, and nothing is written. */
  lemma LoginNullBody(rows: seq<UserRow>, online: bool, now: string, sha256: string -> seq<Hex.Byte>)
    ensures Login(rows, online, Ok(JNull), now, sha256) == Outcome(Failure(500, LoginUnavailable), rows)
  {
  }

  /** A truthy login that is not a string has no `trim`: a 500, and nothing is written. */
  lemma LoginNonStringLogin(rows: seq<UserRow>, online: bool, b: Json, now: string, sha256: string -> seq<Hex.Byte>)
    requires Truthy(Get(b, "login")) && !Get(b, "login").value.JStr?
    ensures Login(rows, online, Ok(b), now, sha256) == Outcome(Failure(500, LoginUnavailable), rows)
  {
  }

  /**
   * A login holding U+0000 cannot travel as an argument of the sqlite3
   * command: a 500 even with the store up, and nothing is written.
   */
  lemma LoginNulRefused(rows: seq<UserRow>, login: string, password: string, now: string,
                        sha256: string -> seq<Hex.Byte>)
    requires password != [] && '\0' in Trim(login)
    ensures Login(rows, true, Ok(LoginBody(login, password)), now, sha256) == Outcome(Failure(500, LoginUnavailable), rows)
  {
    ReadLoginBody(login, password);
  }

  /** A truthy password that is not a string, checked against a `sha256:` hash, makes `hash.update` throw: a 500. */
  lemma LoginNonStringCandidate(rows: seq<UserRow>, b: Json, now: string, sha256: string -> seq<Hex.Byte>)
    requires ReadLoginInput(b).Ok?
    requires var input := ReadLoginInput(b).value;
      && input.login != [] && '\0' !in input.login
      && Truthy(Some(input.password)) && !input.password.JStr?
      && FindByLogin(rows, input.login).Some? && Tagged(FindByLogin(rows, input.login).value)
    ensures Login(rows, true, Ok(b), now, sha256) == Outcome(Failure(500, LoginUnavailable), rows)
  {
  }

  /**
   * Success: the row whose login matches the trimmed login up to ASCII case,
   * and whose password verifies, gets the timestamp; no other row and no
   * other field changes; the response shows that row with the new timestamp.
   */
  lemma LoginSucceeds(rows: seq<UserRow>, k: nat, login: string, password: string, now: string,
                      sha256: string -> seq<Hex.Byte>)
    requires UniqueIds(rows) && UniqueLogins(rows)
    requires k < |rows| && Trim(login) != [] && '\0' !in Trim(login) && SameLogin(rows[k].login, Trim(login))
    requires VerifyPassword(sha256, rows[k], JStr(password)) == Ok(true)
    ensures Login(rows, true, Ok(LoginBody(login, password)), now, sha256).response
            == SendJson(200, JObj(map["ok" := JBool(true), "user" := NormalizeUser(rows[k].(lastLoginAt := Some(now)))]))
    ensures var after := Login(rows, true, Ok(LoginBody(login, password)), now, sha256).rows;
      |after| == |rows| && forall i :: 0 <= i < |rows| ==>
        after[i] == if i == k then rows[k].(lastLoginAt := Some(now)) else rows[i]
  {
    var b := LoginBody(login, password);
    ReadLoginBody(login, password);
    FindByLoginUnique(rows, k, Trim(login));
    var user := NormalizeUser(rows[k].(lastLoginAt := Some(now)));
    var o := Login(rows, true, Ok(b), now, sha256);
    assert o == Outcome(SendJson(200, JObj(map["ok" := JBool(true), "user" := user])), SetLastLogin(rows, rows[k].id, now));
    SetLastLoginOnly(rows, k, now);
  }

  // ------------------------------------------------------- password change

  /** `Number(body.userId)`, `body.currentPassword || ''`, `body.newPassword || ''`. */
  datatype ChangeInput = ChangeInput(userId: JsNumber, current: Json, newPassword: Json)

  /**
   * Reads the password-change fields; property access on null throws a
   * TypeError, and so does `Number` of a user id it cannot convert.
   */
  function ReadChangeInput(body: Json): (r: Result<ChangeInput, Fault>)
    ensures r.Err? <==> body == JNull || (Get(body, "userId").Some? && ToStringThrows(Get(body, "userId").value))
    ensures r.Err? ==> r.error == TypeError
    ensures r.Ok? ==> Ok(r.value.userId) == ToNumber(Get(body, "userId"))
    ensures r.Ok? ==> !Truthy(Get(body, "currentPassword")) ==> r.value.current == JStr("")
    ensures r.Ok? ==> !Truthy(Get(body, "newPassword")) ==> r.value.newPassword == JStr("")
    ensures r.Ok? && Truthy(Get(body, "currentPassword")) ==> r.value.current == Get(body, "currentPassword").value
    ensures r.Ok? && Truthy(Get(body, "newPassword")) ==> r.value.newPassword == Get(body, "newPassword").value
  {
    if body.JNull? then Err(TypeError)
    else
      match ToNumber(Get(body, "userId"))
      case Err(f) => Err(f)
      case Ok(userId) =>
        Ok(ChangeInput(userId, Or(Get(body, "currentPassword"), JStr("")), Or(Get(body, "newPassword"), JStr(""))))
  }

  /**
   * `v.length < n`: a string's or an array's own length; an object's
   * `length` field compared as `Number(length)`, and `undefined < n` (no
   * such field, or a boolean or a number) is false; null has no properties.
   */
  function ShorterThan(v: Json, n: nat): (r: Result<bool, Fault>)
    ensures v.JStr? ==> r == Ok(|v.s| < n)
    ensures v.JArr? ==> r == Ok(|v.items| < n)
    ensures r.Err? <==> v == JNull || (v.JObj? && "length" in v.fields && ToStringThrows(v.fields["length"]))
    ensures r.Err? ==> r.error == TypeError
    ensures v.JBool? || v.JNum? || (v.JObj? && "length" !in v.fields) ==> r == Ok(false)
    ensures v.JObj? && "length" in v.fields && r.Ok? ==>
      var len := ValueToNumber(v.fields["length"]).value;
      r.value == (len.Finite? && len.r < n as real)
  {
    match v
    case JNull => Err(TypeError)
    case JStr(s) => Ok(|s| < n)
    case JArr(items) => Ok(|items| < n)
    case JObj(fields) =>
      if "length" in fields then
        match ValueToNumber(fields["length"])
        case Err(f) => Err(f)
        case Ok(x) => Ok(x.Finite? && x.r < n as real)
      else Ok(false)
    case _ => Ok(false)
  }

  /** The password-change catch block's answer to a thrown error. */
  function ChangeFault(f: Fault): (r: Response)
    ensures SafeResponse(r) && r.status == ErrorStatus(f)
    ensures r.payload.fields == map["ok" := JBool(false), "message" := JStr(ChangeFailed)]
  {
    Failure(ErrorStatus(f), ChangeFailed)
  }

  /** The password-change outcome for a parsed (or rejected) body. */
  function ChangePassword(rows: seq<UserRow>, online: bool, body: Result<Json, Fault>,
                          sha256: string -> seq<Hex.Byte>): (o: Outcome)
    ensures SafeResponse(o.response)
    ensures o.response.status in {200, 400, 401, 413, 500}
    ensures "user" !in o.response.payload.fields
    ensures o.response.status == 200 ==> o.response.payload.fields["message"] == JStr(ChangeDone)
    ensures o.response.status != 200 ==> o.rows == rows
  {
    match body
    case Err(f) => Outcome(ChangeFault(f), rows)
    case Ok(b) =>
      match ReadChangeInput(b)
      case Err(f) => Outcome(ChangeFault(f), rows)
      case Ok(input) =>
        if !NumberTruthy(input.userId) || !Truthy(Some(input.current)) || !Truthy(Some(input.newPassword)) then
          Outcome(Failure(400, ChangeMissing), rows)
        else
          match ShorterThan(input.newPassword, MinPasswordLength)
          case Err(f) => Outcome(ChangeFault(f), rows)
          case Ok(true) => Outcome(Failure(400, ChangeTooShort), rows)
          case Ok(false) =>
            if !online then
              Outcome(ChangeFault(DbQueryFailed), rows)
            else
              match FindById(rows, input.userId)
              case None => Outcome(Failure(401, ChangeWrongCurrent), rows)
              case Some(record) =>
                match VerifyPassword(sha256, record, input.current)
                case Err(f) => Outcome(ChangeFault(f), rows)
                case Ok(false) => Outcome(Failure(401, ChangeWrongCurrent), rows)
                case Ok(true) =>
                  match input.newPassword
                  case JStr(p) =>
                    Outcome(SendJson(200, JObj(map["ok" := JBool(true), "message" := JStr(ChangeDone)])),
                            SetPasswordHash(rows, record.id, HashPassword(sha256, p)))
                  case _ => Outcome(ChangeFault(TypeError), rows)  // hash.update rejects a non-string
  }

  /** `handlePasswordChange(req, res)`. */
  method HandlePasswordChange(users: UserTable, chunks: seq<string>, parse: string -> Option<Json>,
                              sha256: string -> seq<Hex.Byte>) returns (response: Response)
    requires users.Valid()
    modifies users
    ensures users.Valid()
    ensures Outcome(response, users.rows) == ChangePassword(old(users.rows), users.online, RequestBody.BodyValue(chunks, parse), sha256)
  {
    var body := RequestBody.ReceiveBody(chunks, parse);
    if body.Err? {
      return ChangeFault(body.error);
    }
    var input := ReadChangeInput(body.value);
    if input.Err? {
      return ChangeFault(input.error);
    }
    var userId, current, newPassword := input.value.userId, input.value.current, input.value.newPassword;
    if !NumberTruthy(userId) || !Truthy(Some(current)) || !Truthy(Some(newPassword)) {
      return Failure(400, ChangeMissing);
    }
    var short := ShorterThan(newPassword, MinPasswordLength);
    if short.Err? {
      return ChangeFault(short.error);
    }
    if short.value {
      return Failure(400, ChangeTooShort);
    }
    var found := users.ReadUserById(userId);
    if found.Err? {
      return ChangeFault(found.error);
    }
    if found.value.None? {
      return Failure(401, ChangeWrongCurrent);
    }
    var record := found.value.value;
    var verified := VerifyPassword(sha256, record, current);
    if verified.Err? {
      return ChangeFault(verified.error);
    }
    if !verified.value {
      return Failure(401, ChangeWrongCurrent);
    }
    if !newPassword.JStr? {
      return ChangeFault(TypeError);
    }
    var hashed := HashPassword(sha256, newPassword.s);
    var written := users.UpdatePasswordHash(record.id, hashed);
    assert written;  // the lookup succeeded, so the store answers
    response := SendJson(200, JObj(map["ok" := JBool(true), "message" := JStr(ChangeDone)]));
  }

  /** The body a client sends to change a password. */
  function ChangeBody(userId: int, current: string, newPassword: string): Json
  {
    JObj(map["userId" := JNum(userId as real), "currentPassword" := JStr(current), "newPassword" := JStr(newPassword)])
  }

  /** A zero or NaN id, or an empty password field, is a 400 whatever the store holds; nothing is written. */
  lemma ChangeNeedsAllFields(rows: seq<UserRow>, online: bool, b: Json, sha256: string -> seq<Hex.Byte>)
    requires ReadChangeInput(b).Ok?
    requires var input := ReadChangeInput(b).value;
      !NumberTruthy(input.userId) || !Truthy(Some(input.current)) || !Truthy(Some(input.newPassword))
    ensures ChangePassword(rows, online, Ok(b), sha256) == Outcome(Failure(400, ChangeMissing), rows)
  {
  }

  /**
   * A new password shorter than 8 is a 400 before the store is read: the
   * answer is the same whatever the table, and whether or not the current
   * password is right.
   */
  lemma ChangeRejectsShortPassword(rows: seq<UserRow>, online: bool, userId: int, current: string, p: string,
                                   sha256: string -> seq<Hex.Byte>)
    requires userId != 0 && current != [] && p != [] && |p| < MinPasswordLength
    ensures ChangePassword(rows, online, Ok(ChangeBody(userId, current, p)), sha256)
            == Outcome(Failure(400, ChangeTooShort), rows)
  {
  }

  /** An unknown id or a wrong current password is a 401 and nothing is written. */
  lemma ChangeRejectsWrongCurrent(rows: seq<UserRow>, b: Json, sha256: string -> seq<Hex.Byte>)
    requires ReadChangeInput(b).Ok?
    requires var input := ReadChangeInput(b).value;
      && NumberTruthy(input.userId) && Truthy(Some(input.current)) && Truthy(Some(input.newPassword))
      && ShorterThan(input.newPassword, MinPasswordLength) == Ok(false)
      && (FindById(rows, input.userId).None?
          || VerifyPassword(sha256, FindById(rows, input.userId).value, input.current) == Ok(false))
    ensures ChangePassword(rows, true, Ok(b), sha256) == Outcome(Failure(401, ChangeWrongCurrent), rows)
  {
  }

  /** A complete, long enough request while the store cannot be queried is a 500, and nothing is written. */
  lemma ChangeStoreDown(rows: seq<UserRow>, b: Json, sha256: string -> seq<Hex.Byte>)
    requires ReadChangeInput(b).Ok?
    requires var input := ReadChangeInput(b).value;
      && NumberTruthy(input.userId) && Truthy(Some(input.current)) && Truthy(Some(input.newPassword))
      && ShorterThan(input.newPassword, MinPasswordLength) == Ok(false)
    ensures ChangePassword(rows, false, Ok(b), sha256) == Outcome(Failure(500, ChangeFailed), rows)
  {
  }

  /** A body that parses to null throws at the property access: a 500, and nothing is written. */
  lemma ChangeNullBody(rows: seq<UserRow>, online: bool, sha256: string -> seq<Hex.Byte>)
    ensures ChangePassword(rows, online, Ok(JNull), sha256) == Outcome(Failure(500, ChangeFailed), rows)
  {
  }

  /** A user id that `Number` cannot convert throws before any check: a 500, whatever else the body holds. */
  lemma ChangeIdUnconvertible(rows: seq<UserRow>, online: bool, b: Json, sha256: string -> seq<Hex.Byte>)
    requires Get(b, "userId").Some? && ToStringThrows(Get(b, "userId").value)
    ensures ChangePassword(rows, online, Ok(b), sha256) == Outcome(Failure(500, ChangeFailed), rows)
  {
  }

  /** A new password whose `length` field `Number` cannot convert throws at the length check: a 500. */
  lemma ChangeLengthUnconvertible(rows: seq<UserRow>, online: bool, b: Json, sha256: string -> seq<Hex.Byte>)
    requires ReadChangeInput(b).Ok?
    requires var input := ReadChangeInput(b).value;
      && NumberTruthy(input.userId) && Truthy(Some(input.current))
      && input.newPassword.JObj? && "length" in input.newPassword.fields
      && ToStringThrows(input.newPassword.fields["length"])
    ensures ChangePassword(rows, online, Ok(b), sha256) == Outcome(Failure(500, ChangeFailed), rows)
  {
  }

  /**
   * A new password that is not a string gets past the checks, but once the
   * current password verifies `hash.update` throws: a 500, and nothing is written.
   */
  lemma ChangeNonStringNewPassword(rows: seq<UserRow>, b: Json, sha256: string -> seq<Hex.Byte>)
    requires ReadChangeInput(b).Ok?
    requires var input := ReadChangeInput(b).value;
      && NumberTruthy(input.userId) && Truthy(Some(input.current)) && Truthy(Some(input.newPassword))
      && ShorterThan(input.newPassword, MinPasswordLength) == Ok(false) && !input.newPassword.JStr?
      && FindById(rows, input.userId).Some?
      && VerifyPassword(sha256, FindById(rows, input.userId).value, input.current) == Ok(true)
    ensures ChangePassword(rows, true, Ok(b), sha256) == Outcome(Failure(500, ChangeFailed), rows)
  {
  }

  /** A truthy non-string current password reaching a hashed record makes `hash.update` throw: a 500, no write. */
  lemma ChangeNonStringCurrent(rows: seq<UserRow>, b: Json, sha256: string -> seq<Hex.Byte>)
    requires ReadChangeInput(b).Ok?
    requires var input := ReadChangeInput(b).value;
      && NumberTruthy(input.userId) && Truthy(Some(input.current)) && !input.current.JStr?
      && Truthy(Some(input.newPassword)) && ShorterThan(input.newPassword, MinPasswordLength) == Ok(false)
      && FindById(rows, input.userId).Some? && Tagged(FindById(rows, input.userId).value)
    ensures ChangePassword(rows, true, Ok(b), sha256) == Outcome(Failure(500, ChangeFailed), rows)
  {
  }

  /**
   * Success: only that row's password_hash changes, to `hashPassword(p)`;
   * its last_login_at and every other row stay as they were, and the new
   * password verifies against the new row.
   */
  lemma ChangeSucceeds(rows: seq<UserRow>, k: nat, current: string, p: string, sha256: string -> seq<Hex.Byte>)
    requires UniqueIds(rows)
    requires k < |rows| && rows[k].id != 0 && |p| >= MinPasswordLength
    requires VerifyPassword(sha256, rows[k], JStr(current)) == Ok(true)
    ensures var o := ChangePassword(rows, true, Ok(ChangeBody(rows[k].id, current, p)), sha256);
      && o.response.status == 200
      && |o.rows| == |rows|
      && (forall i :: 0 <= i < |rows| ==>
            o.rows[i] == if i == k then rows[k].(passwordHash := Some(HashPassword(sha256, p))) else rows[i])
      && o.rows[k].lastLoginAt == rows[k].lastLoginAt
      && VerifyPassword(sha256, o.rows[k], JStr(p)) == Ok(true)
  {
    FindByIdUnique(rows, k);
    var b := ChangeBody(rows[k].id, current, p);
    assert Get(b, "userId") == Some(JNum(rows[k].id as real));
    assert ReadChangeInput(b) == Ok(ChangeInput(Finite(rows[k].id as real), JStr(current), JStr(p)));
    var hash := HashPassword(sha256, p);
    assert ChangePassword(rows, true, Ok(b), sha256)
        == Outcome(SendJson(200, JObj(map["ok" := JBool(true), "message" := JStr(ChangeDone)])),
                   SetPasswordHash(rows, rows[k].id, hash));
    SetPasswordHashOnly(rows, k, hash);
    HashThenVerify(sha256, rows[k], p);
  }

  /**
   * A rotation followed by a login: the new password logs in, and an old
   * password with a different digest no longer does. (The login is trimmed
   * before the lookup, so the stored login must have nothing to trim.)
   */
  lemma RotateThenLogin(rows: seq<UserRow>, k: nat, current: string, p: string, q: string, now: string,
                        sha256: string -> seq<Hex.Byte>)
    requires UniqueIds(rows) && UniqueLogins(rows)
    requires k < |rows| && rows[k].id != 0 && |p| >= MinPasswordLength
    requires rows[k].login != [] && Trimmed(rows[k].login) && '\0' !in rows[k].login
    requires VerifyPassword(sha256, rows[k], JStr(current)) == Ok(true)
    ensures var after := ChangePassword(rows, true, Ok(ChangeBody(rows[k].id, current, p)), sha256).rows;
      Login(after, true, Ok(LoginBody(rows[k].login, p)), now, sha256).response.status == 200
    ensures var after := ChangePassword(rows, true, Ok(ChangeBody(rows[k].id, current, p)), sha256).rows;
      q != [] && sha256(q) != sha256(p) ==>
        Login(after, true, Ok(LoginBody(rows[k].login, q)), now, sha256) == Outcome(Failure(401, LoginInvalid), after)
  {
    var after := ChangePassword(rows, true, Ok(ChangeBody(rows[k].id, current, p)), sha256).rows;
    ChangeSucceeds(rows, k, current, p, sha256);
    assert forall i :: 0 <= i < |after| ==> after[i].id == rows[i].id && after[i].login == rows[i].login;
    assert UniqueIds(after) && UniqueLogins(after);
    TrimOfTrimmed(rows[k].login);
    LoginSucceeds(after, k, rows[k].login, p, now, sha256);
    if q != [] && sha256(q) != sha256(p) {
      HashRejectsOthers(sha256, rows[k], p, q);
      FindByLoginUnique(after, k, rows[k].login);
      ReadLoginBody(rows[k].login, q);
      LoginFailuresAlike(after, LoginBody(rows[k].login, q), now, sha256);
    }
  }

  /**
   * Bootstrap mode: a row without a password hash logs in with its own
   * stored login as the password, and that login gains a timestamp.
   */
  lemma BootstrapLoginAccepted(rows: seq<UserRow>, k: nat, now: string, sha256: string -> seq<Hex.Byte>)
    requires UniqueIds(rows) && UniqueLogins(rows)
    requires k < |rows| && rows[k].login != [] && Trimmed(rows[k].login) && '\0' !in rows[k].login
    requires Bootstrap(rows[k])
    ensures var o := Login(rows, true, Ok(LoginBody(rows[k].login, rows[k].login)), now, sha256);
      o.response.status == 200 && o.rows[k] == rows[k].(lastLoginAt := Some(now))
  {
    TrimOfTrimmed(rows[k].login);
    LoginSucceeds(rows, k, rows[k].login, rows[k].login, now, sha256);
  }
}
