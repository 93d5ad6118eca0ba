/**
 * The authentication controller: registration, login, the password-reset
 * ledger (forgot / reset) and password verification, as functions from the
 * tables and the request to the reply and the tables afterwards.
 */
module AuthService {
  import opened Js
  import opened Crypto
  import opened Tables
  import opened AuthMiddleware

  const DefaultJwtSecret := "por_favor_cambia_este_secreto"
  const DefaultAdminCode := "TicUser001"
  /** One hour, in milliseconds. */
  const ResetLifetime := 3600000
  const ResetLinkPrefix := "https://mrladino.github.io/Frontend/reset-password?token="
  const ResetSubject := "Restablecer Contraseña - TIC Americas"
  const RegisterExpiry := "24h"
  const LoginExpiry := "30d"

  const MsgAllRequired := "Todos los campos son obligatorios."
  const MsgMismatch := "Las contraseñas no coinciden."
  const MsgShort := "La contraseña debe tener al menos 6 caracteres."
  const MsgAdminCode := "Contraseña de Admin incorrecta."
  const MsgEmailTaken := "El correo ya está registrado."
  const MsgRegistered := "Usuario registrado exitosamente."
  const MsgUserNotFound := "Usuario no encontrado."
  const MsgRolePrefix := "Rol incorrecto. Tu cuenta está registrada como "
  const MsgBadPassword := "Contraseña incorrecta."
  const MsgLoggedIn := "Login exitoso"
  const MsgEmailRequired := "El correo es obligatorio."
  const MsgNoSuchEmail := "No existe un usuario con ese correo."
  const MsgMailSent := "Se ha enviado un correo con instrucciones para restablecer tu contraseña."
  const MsgResetRequired := "Token y nueva contraseña son obligatorios."
  const MsgInvalidToken := "Token inválido o inexistente."
  const MsgExpired := "El token ha expirado."
  const MsgNewShort := "La nueva contraseña debe tener al menos 6 caracteres."
  const MsgReset := "Contraseña restablecida con éxito."
  const MsgPasswordRequired := "La contraseña es obligatoria."

  /** `JWT_SECRET` with the controller's destructuring default, which applies only when unset. */
  function SecretOf(env: Env): (s: Field)
    ensures env.jwtSecret.Some? ==> s == env.jwtSecret
    ensures env.jwtSecret.None? ==> s == Some(DefaultJwtSecret)
    ensures Truthy(s) <==> env.jwtSecret != Some("")
  {
    if env.jwtSecret.None? then Some(DefaultJwtSecret) else env.jwtSecret
  }

  /** `ADMIN_CODE` with the controller's destructuring default, which applies only when unset. */
  function AdminCodeOf(env: Env): (code: string)
    ensures env.adminCode.Some? ==> code == env.adminCode.value
    ensures env.adminCode.None? ==> code == DefaultAdminCode
  {
    if env.adminCode.None? then DefaultAdminCode else env.adminCode.value
  }

  /** The admin gate: a truthy admin password equal to the configured code, both trimmed. */
  predicate GateOk(adminPassword: Field, code: string): (ok: bool)
    ensures !Truthy(adminPassword) ==> !ok
    ensures ok && Trimmed(adminPassword.value) ==> adminPassword.value == Trim(code)
  {
    Truthy(adminPassword) && Trim(adminPassword.value) == Trim(code)
  }

  /** The configured code, with any whitespace around it, opens the gate. */
  lemma GateAcceptsPaddedCode(before: string, code: string, after: string)
    requires AllSpace(before) && AllSpace(after)
    requires code != "" && Trimmed(code)
    ensures GateOk(Some(before + code + after), code)
  {
    PaddedTrim(before, code, after);
  }

  datatype RegisterBody = RegisterBody(
    name: Field, email: Field, password: Field, confirmPassword: Field, role: Field, adminPassword: Field)

  /** `user` in the reply of a registration: `{ user_id, name, email }`. */
  datatype UserView = UserView(userId: nat, name: string, email: string)

  datatype Registered = Registered(token: SessionToken, user: UserView)

  /** The validation chain of `registerUser`, which runs before any table is read:
      the message of the first check that fails, in source order. */
  function RegisterRejection(b: RegisterBody, code: string): (r: Option<string>)
    ensures r.None? <==>
            && Truthy(b.name) && Truthy(b.email) && Truthy(b.password) && Truthy(b.confirmPassword) && Truthy(b.role)
            && b.password == b.confirmPassword && |b.password.value| >= 6
            && (b.role == Some("admin") ==> GateOk(b.adminPassword, code))
    ensures !(Truthy(b.name) && Truthy(b.email) && Truthy(b.password) && Truthy(b.confirmPassword) && Truthy(b.role))
            ==> r == Some(MsgAllRequired)
    ensures Truthy(b.name) && Truthy(b.email) && Truthy(b.password) && Truthy(b.confirmPassword) && Truthy(b.role) ==>
            && (b.password != b.confirmPassword ==> r == Some(MsgMismatch))
            && (b.password == b.confirmPassword && |b.password.value| < 6 ==> r == Some(MsgShort))
            && ((b.password == b.confirmPassword && |b.password.value| >= 6 && b.role == Some("admin") &&
                 !GateOk(b.adminPassword, code)) ==> r == Some(MsgAdminCode))
  {
    if !Truthy(b.name) || !Truthy(b.email) || !Truthy(b.password) || !Truthy(b.confirmPassword) || !Truthy(b.role) then
      Some(MsgAllRequired)
    else if b.password.value != b.confirmPassword.value then Some(MsgMismatch)
    else if |b.password.value| < 6 then Some(MsgShort)
    else if b.role.value == "admin" && !GateOk(b.adminPassword, code) then Some(MsgAdminCode)
    else None
  }

  /** The row `registerUser` inserts: the password hashed, the admin password hashed
      for an admin and NULL otherwise, every other column NULL. */
  function RegisteredRow(b: RegisterBody, salt: nat, adminSalt: nat): (u: User)
    requires Truthy(b.password)
    requires b.role == Some("admin") ==> Truthy(b.adminPassword)
    ensures u.name == b.name && u.email == b.email && u.role == b.role
    ensures Compare(b.password, u.password) == Some(true)
    ensures u.adminPassword.Some? <==> b.role == Some("admin")
    ensures u.adminPassword.Some? ==> Compare(b.adminPassword, u.adminPassword) == Some(true)
    ensures u.phone.None? && u.description.None? && u.profilePhoto.None? && u.companyInfo.None?
  {
    User(b.name, b.email, Some(Hash(b.password.value, salt)), b.role,
         if b.role == Some("admin") then Some(Hash(b.adminPassword.value, adminSalt)) else None,
         None, None, None, None)
  }

  /** `db` with `row` inserted into `users` under the next key. */
  function InsertUser(db: Db, row: User): (db': Db)
    ensures db'.users == db.users[db.nextUser := row] && db'.nextUser == db.nextUser + 1
    ensures Valid(db) ==> Valid(db')
  {
    db.(users := db.users[db.nextUser := row], nextUser := db.nextUser + 1)
  }

  /** `registerUser` (POST /api/auth/signup). `salt` and `adminSalt` are bcrypt's randomness. */
  function Register(db: Db, b: RegisterBody, env: Env, salt: nat, adminSalt: nat): (r: Step<Registered>)
    ensures RegisterRejection(b, AdminCodeOf(env)).Some? ==>
            r == Step(Reply(400, RegisterRejection(b, AdminCodeOf(env)).value, None), db)
    ensures RegisterRejection(b, AdminCodeOf(env)).None? && FindByEmail(db, b.email).Some? ==>
            r == Step(Reply(400, MsgEmailTaken, None), db)
    ensures RegisterRejection(b, AdminCodeOf(env)).None? && FindByEmail(db, b.email).None? ==>
            && r.db == InsertUser(db, RegisteredRow(b, salt, adminSalt))
            && (r.reply.status == 201 <==> Truthy(SecretOf(env)))
            && (!Truthy(SecretOf(env)) ==> r.reply == Reply(500, ServerError, None))
    ensures r.reply.status == 400 || r.reply.status == 201 || r.reply.status == 500
    ensures r.reply.status == 201 <==> r.reply.data.Some?
    ensures r.reply.status == 201 ==>
            r.reply == Reply(201, MsgRegistered, Some(Registered(
                               SessionToken(Claims(db.nextUser, b.email, b.role), SecretOf(env).value, RegisterExpiry),
                               UserView(db.nextUser, b.name.value, b.email.value))))
    ensures Valid(db) ==> Valid(r.db)
  {
    var code := AdminCodeOf(env);
    var rejection := RegisterRejection(b, code);
    if rejection.Some? then Step(Reply(400, rejection.value, None), db)
    else if FindByEmail(db, b.email).Some? then Step(Reply(400, MsgEmailTaken, None), db)
    else
      var id := db.nextUser;
      var db' := InsertUser(db, RegisteredRow(b, salt, adminSalt));
      var token := Sign(Claims(id, b.email, b.role), SecretOf(env), RegisterExpiry);
      if token.None? then Step(Reply(500, ServerError, None), db')
      else Step(Reply(201, MsgRegistered, Some(Registered(token.value, UserView(id, b.name.value, b.email.value)))), db')
  }

  /** A registration that passes validation fails with 400 exactly when the email is
      already registered, and then the users table is unchanged. */
  lemma RegisterDuplicateEmail(db: Db, b: RegisterBody, env: Env, salt: nat, adminSalt: nat)
    requires Valid(db)
    requires RegisterRejection(b, AdminCodeOf(env)).None?
    ensures var r := Register(db, b, env, salt, adminSalt);
            (r.reply == Reply(400, MsgEmailTaken, None) <==> exists k :: k in db.users && db.users[k].email == b.email)
    ensures var r := Register(db, b, env, salt, adminSalt);
            r.reply.status == 400 ==> r.db == db
  {
    FindByEmailComplete(db, b.email.value);
  }

  datatype LoginBody = LoginBody(email: Field, password: Field, role: Field, adminPassword: Field)

  /** The body of a successful login: the token and `{ user_id, name, email, role }`. */
  datatype LoginView = LoginView(token: SessionToken, userId: nat, name: Field, email: Field, role: Field)

  /** The login rule shared by `loginUser` and the live `/login` route, for a given
      admin code and signing secret. It only reads the tables. */
  function LoginWith(db: Db, b: LoginBody, code: string, secret: Field): (r: Reply<LoginView>)
    ensures FindByEmail(db, b.email).None? ==> r == Reply(400, MsgUserNotFound, None)
    ensures FindByEmail(db, b.email).Some? ==>
            var id := FindByEmail(db, b.email).value;
            var u := db.users[id];
            && (!SameText(u.role, b.role) ==> r == Reply(403, MsgRolePrefix + Show(u.role), None))
            && (SameText(u.role, b.role) && b.role == Some("admin") && !GateOk(b.adminPassword, code) ==>
                  r == Reply(400, MsgAdminCode, None))
            && (SameText(u.role, b.role) && (b.role == Some("admin") ==> GateOk(b.adminPassword, code)) ==>
                  && (Compare(b.password, u.password).None? ==> r == Reply(500, ServerError, None))
                  && (Compare(b.password, u.password) == Some(false) ==> r == Reply(400, MsgBadPassword, None))
                  && (Compare(b.password, u.password) == Some(true) ==>
                        if Truthy(secret) then
                          r == Reply(200, MsgLoggedIn, Some(LoginView(SessionToken(Claims(id, u.email, u.role), secret.value, LoginExpiry),
                                                                   id, u.name, u.email, u.role)))
                        else r == Reply(500, ServerError, None)))
    ensures r.status == 200 <==> r.data.Some?
    ensures r.status == 200 ==>
            var id := FindByEmail(db, b.email).value;
            var u := db.users[id];
            && SameText(u.role, b.role)
            && (b.role == Some("admin") ==> GateOk(b.adminPassword, code))
            && Compare(b.password, u.password) == Some(true)
            && Truthy(secret)
  {
    match FindByEmail(db, b.email)
    case None => Reply(400, MsgUserNotFound, None)
    case Some(id) =>
      var u := db.users[id];
      if !SameText(u.role, b.role) then Reply(403, MsgRolePrefix + Show(u.role), None)
      else if b.role == Some("admin") && !GateOk(b.adminPassword, code) then Reply(400, MsgAdminCode, None)
      else match Compare(b.password, u.password)
        case None => Reply(500, ServerError, None)
        case Some(false) => Reply(400, MsgBadPassword, None)
        case Some(true) =>
          match Sign(Claims(id, u.email, u.role), secret, LoginExpiry)
          case None => Reply(500, ServerError, None)
          case Some(token) => Reply(200, MsgLoggedIn, Some(LoginView(token, id, u.name, u.email, u.role)))
  }

  /** `loginUser`, with the controller's secret and admin code. */
  function Login(db: Db, b: LoginBody, env: Env): (r: Reply<LoginView>)
    ensures r.data.Some? ==> r.data.value.token.secret == SecretOf(env).value
  {
    LoginWith(db, b, AdminCodeOf(env), SecretOf(env))
  }

  /** The mail `forgotPassword` sends. */
  datatype Mail = Mail(to: string, subject: string, link: string)

  /** What `forgotPassword` does: the reply, the tables afterwards and the mail handed
      to `sendMail`, when it was called. The mail is not part of the reply's body. */
  datatype ForgotStep = ForgotStep(reply: Reply<()>, db: Db, mail: Option<Mail>)

  /** `forgotPassword` (POST /api/auth/forgot-password). `random` stands for
      `crypto.randomBytes(20)`, `now` for the clock, `mailDelivered` for the outcome
      of `sendMail`. */
  function ForgotPassword(db: Db, email: Field, now: int, random: seq<byte>, mailDelivered: bool): (r: ForgotStep)
    ensures !Truthy(email) ==> r == ForgotStep(Reply(400, MsgEmailRequired, None), db, None)
    ensures Truthy(email) && FindByEmail(db, email).None? ==> r == ForgotStep(Reply(404, MsgNoSuchEmail, None), db, None)
    ensures Truthy(email) && FindByEmail(db, email).Some? ==>
            && r.db == db.(resets := db.resets[db.nextReset := ResetRow(FindByEmail(db, email).value, Hex(random), now + ResetLifetime)],
                          nextReset := db.nextReset + 1)
            && r.mail == Some(Mail(email.value, ResetSubject, ResetLinkPrefix + Hex(random)))
            && (mailDelivered ==> r.reply == Reply(200, MsgMailSent, None))
            && (!mailDelivered ==> r.reply == Reply(500, ServerError, None))
    ensures r.reply.data.None?
    ensures r.mail.Some? <==> r.db != db
    ensures Valid(db) ==> Valid(r.db)
  {
    if !Truthy(email) then ForgotStep(Reply(400, MsgEmailRequired, None), db, None)
    else match FindByEmail(db, email)
      case None => ForgotStep(Reply(404, MsgNoSuchEmail, None), db, None)
      case Some(id) =>
        var token := Hex(random);
        var db' := db.(resets := db.resets[db.nextReset := ResetRow(id, token, now + ResetLifetime)],
                       nextReset := db.nextReset + 1);
        var mail := Mail(email.value, ResetSubject, ResetLinkPrefix + token);
        if !mailDelivered then ForgotStep(Reply(500, ServerError, None), db', Some(mail))
        else ForgotStep(Reply(200, MsgMailSent, None), db', Some(mail))
  }

  /** The reset token of `forgotPassword` is 40 lowercase hexadecimal characters, from which
      the random bytes can be read back, and the mailed link is the fixed prefix and the token. */
  lemma ResetTokenShape(db: Db, email: Field, now: int, random: seq<byte>)
    requires |random| == 20
    requires ForgotPassword(db, email, now, random, true).reply.status == 200
    ensures var token := ForgotPassword(db, email, now, random, true).db.resets[db.nextReset].token;
            && |token| == 40
            && (forall k :: 0 <= k < |token| ==> IsHexDigit(token[k]))
            && Unhex(token) == Some(random)
            && ForgotPassword(db, email, now, random, true).mail.value.link == ResetLinkPrefix + token
  {
    UnhexHex(random);
  }

  /** `resetPassword` (POST /api/auth/reset-password). `salt` is bcrypt's randomness. */
  function ResetPassword(db: Db, token: Field, newPassword: Field, now: int, salt: nat): (r: Step<()>)
    ensures r.reply.data.None?
    ensures !Truthy(token) || !Truthy(newPassword) ==> r == Step(Reply(400, MsgResetRequired, None), db)
    ensures Truthy(token) && Truthy(newPassword) && FindReset(db, token.value).None? ==>
            r == Step(Reply(400, MsgInvalidToken, None), db)
    ensures Truthy(token) && Truthy(newPassword) && FindReset(db, token.value).Some? &&
            db.resets[FindReset(db, token.value).value].expiresAt < now ==>
            r == Step(Reply(400, MsgExpired, None), db)
    ensures Truthy(token) && Truthy(newPassword) && FindReset(db, token.value).Some? &&
            !(db.resets[FindReset(db, token.value).value].expiresAt < now) ==>
            && (r.reply.status == 200 <==> |newPassword.value| >= 6)
            && (|newPassword.value| < 6 ==> r == Step(Reply(400, MsgNewShort, None), db))
    ensures r.reply.status != 200 ==> r.reply.status == 400 && r.db == db
    ensures r.reply.status == 200 ==>
            && Truthy(token) && |newPassword.value| >= 6
            && var id := FindReset(db, token.value).value;
               var owner := db.resets[id].userId;
               && now <= db.resets[id].expiresAt
               && r.reply.message == MsgReset
               && r.db.resets == db.resets - {id}
               && (owner in db.users ==> r.db.users == db.users[owner := db.users[owner].(password := Some(Hash(newPassword.value, salt)))])
               && (owner !in db.users ==> r.db.users == db.users)
               && r.db == db.(users := r.db.users, resets := r.db.resets)
    ensures Valid(db) ==> Valid(r.db)
  {
    if !Truthy(token) || !Truthy(newPassword) then Step(Reply(400, MsgResetRequired, None), db)
    else match FindReset(db, token.value)
      case None => Step(Reply(400, MsgInvalidToken, None), db)
      case Some(id) =>
        var row := db.resets[id];
        if row.expiresAt < now then Step(Reply(400, MsgExpired, None), db)
        else if |newPassword.value| < 6 then Step(Reply(400, MsgNewShort, None), db)
        else
          var hashed := Some(Hash(newPassword.value, salt));
          var users := if row.userId in db.users then db.users[row.userId := db.users[row.userId].(password := hashed)] else db.users;
          Step(Reply(200, MsgReset, None), db.(users := users, resets := db.resets - {id}))
  }

  /** `verifyPassword` (POST /api/auth/validate-password) for the authenticated `userId`;
      it only reads the tables. The data is the `valid` field of the body. */
  function VerifyPassword(db: Db, userId: nat, password: Field): (r: Reply<bool>)
    ensures !Truthy(password) ==> r == Reply(400, MsgPasswordRequired, None)
    ensures Truthy(password) && userId !in db.users ==> r == Reply(404, MsgUserNotFound, None)
    ensures r.data == Some(true) <==> r.status == 200
    ensures r.status == 200 <==>
            Truthy(password) && userId in db.users && Compare(password, db.users[userId].password) == Some(true)
    ensures r.data == Some(false) <==>
            Truthy(password) && userId in db.users && Compare(password, db.users[userId].password) == Some(false)
    ensures r.data == Some(false) ==> r == Reply(401, MsgBadPassword, Some(false))
    ensures Truthy(password) && userId in db.users && Compare(password, db.users[userId].password).None? ==>
            r == Reply(500, ServerError, None)
    ensures Truthy(password) && userId in db.users && db.users[userId].password.None? ==>
            r == Reply(500, ServerError, None)
  {
    if !Truthy(password) then Reply(400, MsgPasswordRequired, None)
    else if userId !in db.users then Reply(404, MsgUserNotFound, None)
    else match Compare(password, db.users[userId].password)
      case None => Reply(500, ServerError, None)
      case Some(true) => Reply(200, "", Some(true))
      case Some(false) => Reply(401, MsgBadPassword, Some(false))
  }

  // ---------------------------------------------------------------------------
  // Properties that relate several operations

  /** A password shorter than 6 characters is refused at registration and at reset,
      whatever else the request holds, and nothing changes. */
  lemma ShortPasswordsRefused(db: Db, b: RegisterBody, env: Env, salt: nat, adminSalt: nat,
                              token: Field, newPassword: string, now: int)
    requires |newPassword| < 6
    ensures Truthy(b.password) && |b.password.value| < 6 ==>
            Register(db, b, env, salt, adminSalt).reply.status == 400 &&
            Register(db, b, env, salt, adminSalt).db == db
    ensures ResetPassword(db, token, Some(newPassword), now, salt).reply.status == 400 &&
            ResetPassword(db, token, Some(newPassword), now, salt).db == db
  {
  }

  /** Registering as admin with a wrong gate code fails with 400 and changes nothing,
      whatever the other fields and the tables hold. */
  lemma WrongGateCodeRefused(db: Db, b: RegisterBody, env: Env, salt: nat, adminSalt: nat)
    requires b.role == Some("admin")
    requires !GateOk(b.adminPassword, AdminCodeOf(env))
    ensures Register(db, b, env, salt, adminSalt).reply.status == 400
    ensures Register(db, b, env, salt, adminSalt).db == db
  {
  }

  /** The fields a login needs, taken from a registration. */
  function LoginOf(b: RegisterBody): LoginBody {
    LoginBody(b.email, b.password, b.role, b.adminPassword)
  }

  /** After a successful registration, logging in with the same email, password, role
      and admin password succeeds, with a token for the new user's id, for any code and
      any truthy secret under which the registration's gate check passes. */
  lemma RegisterThenLogin(db: Db, b: RegisterBody, env: Env, salt: nat, adminSalt: nat,
                                             code: string, secret: Field)
    requires Valid(db)
    requires Register(db, b, env, salt, adminSalt).reply.status == 201
    requires b.role == Some("admin") ==> GateOk(b.adminPassword, code)
    requires Truthy(secret)
    ensures var r := LoginWith(Register(db, b, env, salt, adminSalt).db, LoginOf(b), code, secret);
            && r.status == 200
            && r.data.value.userId == db.nextUser
            && r.data.value.token.claims == Register(db, b, env, salt, adminSalt).reply.data.value.token.claims
  {
    var row := RegisteredRow(b, salt, adminSalt);
    var db' := Register(db, b, env, salt, adminSalt).db;
    assert db' == InsertUser(db, row);
    FindByEmailAfterInsert(db, b.email.value, row);
    assert FindByEmail(db', b.email) == Some(db.nextUser);
    assert db'.users[db.nextUser] == row;
  }

  /** The same for `loginUser` itself: a registration can always be followed by a login. */
  lemma RegisterThenControllerLogin(db: Db, b: RegisterBody, env: Env, salt: nat, adminSalt: nat)
    requires Valid(db)
    requires Register(db, b, env, salt, adminSalt).reply.status == 201
    ensures Login(Register(db, b, env, salt, adminSalt).db, LoginOf(b), env).status == 200
  {
    RegisterThenLogin(db, b, env, salt, adminSalt, AdminCodeOf(env), SecretOf(env));
  }

  /** No reset row other than `id` carries the token of row `id`. */
  predicate TokenUnique(db: Db, id: nat)
    requires id in db.resets
  {
    forall k :: k in db.resets && k != id ==> db.resets[k].token != db.resets[id].token
  }

  /** A reset token is single-use: once a reset has consumed it, a second reset with the
      same token fails as invalid (when no other row carries that token). */
  lemma ResetTokenSingleUse(db: Db, token: string, newPassword: Field, now: int, salt: nat,
                            newPassword2: Field, now2: int, salt2: nat)
    requires Valid(db)
    requires ResetPassword(db, Some(token), newPassword, now, salt).reply.status == 200
    requires TokenUnique(db, FindReset(db, token).value)
    requires Truthy(newPassword2)
    ensures var db' := ResetPassword(db, Some(token), newPassword, now, salt).db;
            ResetPassword(db', Some(token), newPassword2, now2, salt2) == Step(Reply(400, MsgInvalidToken, None), db')
  {
    var id := FindReset(db, token).value;
    var db' := ResetPassword(db, Some(token), newPassword, now, salt).db;
    forall j | j in db'.resets
      ensures db'.resets[j].token != token
    {
      assert j in db.resets && j != id;
    }
  }

  /** The reset lifecycle: a token mailed by `forgotPassword` at time `now` (and not carried
      by an older row) resets the password up to and including `now + 1h`, and is refused
      as expired after that. */
  lemma {:induction false} ForgotThenReset(db: Db, email: string, now: int, random: seq<byte>,
                                           newPassword: string, later: int, salt: nat)
    requires Valid(db)
    requires ForgotPassword(db, Some(email), now, random, true).reply.status == 200
    requires |random| == 20 && FindReset(db, Hex(random)).None?
    requires |newPassword| >= 6
    ensures var db' := ForgotPassword(db, Some(email), now, random, true).db;
            var r := ResetPassword(db', Some(Hex(random)), Some(newPassword), later, salt);
            && (later <= now + ResetLifetime ==> r.reply.status == 200 && r.db.resets == db.resets)
            && (later > now + ResetLifetime ==> r.reply == Reply(400, MsgExpired, None))
  {
    var db' := ForgotPassword(db, Some(email), now, random, true).db;
    var token := Hex(random);
    var p := (r: ResetRow) => r.token == token;
    forall j | j < db.nextReset && j in db'.resets
      ensures !p(db'.resets[j])
    {
      assert db'.resets[j] == db.resets[j];
    }
    assert FirstKey(db'.resets, p, db.nextReset).None?;
    assert FindReset(db', token) == Some(db.nextReset);
    assert db'.resets[db.nextReset].expiresAt == now + ResetLifetime;
    assert db'.resets - {db.nextReset} == db.resets;
  }

  /** After a successful reset the owner's password is the new one: verifying succeeds
      exactly for an attempt that agrees with it in its first 72 characters, so for
      passwords of at most 72 characters exactly for the new password. */
  lemma ResetThenVerify(db: Db, token: string, newPassword: string, now: int, salt: nat, attempt: string)
    requires ResetPassword(db, Some(token), Some(newPassword), now, salt).reply.status == 200
    requires db.resets[FindReset(db, token).value].userId in db.users
    requires attempt != ""
    ensures var owner := db.resets[FindReset(db, token).value].userId;
            var db' := ResetPassword(db, Some(token), Some(newPassword), now, salt).db;
            && VerifyPassword(db', owner, Some(attempt)).data == Some(Key(attempt) == Key(newPassword))
            && (|attempt| <= KeyLength && |newPassword| <= KeyLength ==>
                  (VerifyPassword(db', owner, Some(attempt)).status == 200 <==> attempt == newPassword))
  {
  }

  /** `registerUser` signs with JWT_SECRET or, when it is unset, with the controller's
      default, while `verifyToken` verifies with JWT_SECRET as it is. So a registration
      token sent back as a bearer header before it expires is let through exactly when
      JWT_SECRET is set, and with it unset every such token is refused with 403. */
  lemma RegisterTokenAdmitted(db: Db, b: RegisterBody, env: Env, salt: nat, adminSalt: nat,
                              pad: string, query: Field)
    requires Valid(db)
    requires Register(db, b, env, salt, adminSalt).reply.status == 201
    requires AllSpace(pad)
    ensures var t := Register(db, b, env, salt, adminSalt).reply.data.value.token;
            var g := VerifyToken(Request(Some(BearerPrefix + pad + TokenText(t)), query), env.jwtSecret, false);
            && (g.Next? <==> Truthy(env.jwtSecret))
            && (g.Next? ==> g.user.userId == db.nextUser)
            && (env.jwtSecret.None? ==> g == Deny(403, MsgBadToken))
  {
    var t := Register(db, b, env, salt, adminSalt).reply.data.value.token;
    PaddedBearerVerifies(t, pad, query, env.jwtSecret, false);
    VerifySigned(t, env.jwtSecret, false);
  }
}
