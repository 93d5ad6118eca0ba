/**
 * The user router: the live signup and login, the admin user list, the
 * profile update (SQL COALESCE merge) and account deletion.
 */
module UserRoutes {
  import opened Js
  import opened Crypto
  import opened Tables
  import opened AuthMiddleware
  import opened AuthService
  import ServerRoutes

  const MsgSignupRequired := "Nombre, email, contraseña y rol son obligatorios."
  const MsgUserTaken := "El usuario ya está registrado."
  const MsgProfileForbidden := "No tienes permiso para modificar este perfil"
  const MsgProfileUpdated := "Perfil actualizado correctamente"
  const MsgDeleteForbidden := "No tienes permiso para eliminar este usuario."
  const MsgDeleted := "Usuario eliminado exitosamente"
  const SignupExpiry := "30d"

  /** `process.env.ADMIN_CODE || "TicUser001"`: here the default also replaces an empty code. */
  function RouteAdminCode(env: Env): (code: string)
    ensures code != ""
    ensures Truthy(env.adminCode) ==> code == env.adminCode.value
    ensures !Truthy(env.adminCode) ==> code == DefaultAdminCode
  {
    if Truthy(env.adminCode) then env.adminCode.value else DefaultAdminCode
  }

  datatype SignupBody = SignupBody(name: Field, email: Field, password: Field, role: Field, adminPassword: Field)

  /** The validation chain of `/signup`, which runs before any table is read. It has no
      password confirmation. */
  function SignupRejection(b: SignupBody, code: string): (r: Option<string>)
    ensures r.None? <==>
            && Truthy(b.name) && Truthy(b.email) && Truthy(b.password) && Truthy(b.role)
            && |b.password.value| >= 6
            && (b.role == Some("admin") ==> GateOk(b.adminPassword, code))
    ensures !(Truthy(b.name) && Truthy(b.email) && Truthy(b.password) && Truthy(b.role)) ==> r == Some(MsgSignupRequired)
    ensures (Truthy(b.name) && Truthy(b.email) && Truthy(b.password) && Truthy(b.role) &&
             |b.password.value| < 6) ==> r == Some(MsgShort)
    ensures (Truthy(b.name) && Truthy(b.email) && Truthy(b.password) && Truthy(b.role) &&
             |b.password.value| >= 6 && b.role == Some("admin") && !GateOk(b.adminPassword, code)) ==>
            r == Some(MsgAdminCode)
  {
    if !Truthy(b.name) || !Truthy(b.email) || !Truthy(b.password) || !Truthy(b.role) then Some(MsgSignupRequired)
    else if |b.password.value| < 6 then Some(MsgShort)
    else if b.role.value == "admin" && !GateOk(b.adminPassword, code) then Some(MsgAdminCode)
    else None
  }

  /** The row `/signup` inserts: hashed password, no admin password, other columns NULL. */
  function SignupRow(b: SignupBody, salt: nat): (u: User)
    requires Truthy(b.password)
    ensures u.name == b.name && u.email == b.email && u.role == b.role
    ensures Compare(b.password, u.password) == Some(true)
    ensures u.adminPassword.None? && u.phone.None? && u.description.None? && u.profilePhoto.None? && u.companyInfo.None?
  {
    User(b.name, b.email, Some(Hash(b.password.value, salt)), b.role, None, None, None, None, None)
  }

  /** POST /signup. The reply's data is the token; the secret is `process.env.JWT_SECRET`
      as it is, so an unset or empty secret makes signing throw after the insert. */
  function Signup(db: Db, b: SignupBody, env: Env, salt: nat): (r: Step<SessionToken>)
    ensures SignupRejection(b, RouteAdminCode(env)).Some? ==>
            r == Step(Reply(400, SignupRejection(b, RouteAdminCode(env)).value, None), db)
    ensures SignupRejection(b, RouteAdminCode(env)).None? && FindByEmail(db, b.email).Some? ==>
            r == Step(Reply(400, MsgUserTaken, None), db)
    ensures SignupRejection(b, RouteAdminCode(env)).None? && FindByEmail(db, b.email).None? ==>
            && r.db == InsertUser(db, SignupRow(b, salt))
            && (Truthy(env.jwtSecret) ==>
                  r.reply == Reply(201, MsgRegistered, Some(SessionToken(Claims(db.nextUser, b.email, b.role),
                                                                         env.jwtSecret.value, SignupExpiry))))
            && (!Truthy(env.jwtSecret) ==> r.reply == Reply(500, ServerError, None))
    ensures r.reply.status == 400 || r.reply.status == 201 || r.reply.status == 500
    ensures r.reply.status == 201 <==> r.reply.data.Some?
    ensures Valid(db) ==> Valid(r.db)
  {
    var rejection := SignupRejection(b, RouteAdminCode(env));
    if rejection.Some? then Step(Reply(400, rejection.value, None), db)
    else if FindByEmail(db, b.email).Some? then Step(Reply(400, MsgUserTaken, None), db)
    else
      var db' := InsertUser(db, SignupRow(b, salt));
      match Sign(Claims(db.nextUser, b.email, b.role), env.jwtSecret, SignupExpiry)
      case None => Step(Reply(500, ServerError, None), db')
      case Some(token) => Step(Reply(201, MsgRegistered, Some(token)), db')
  }

  /** A signup that passes validation fails with 400 exactly when the email is already
      registered, and then nothing changes. */
  lemma SignupDuplicateEmail(db: Db, b: SignupBody, env: Env, salt: nat)
    requires Valid(db)
    requires SignupRejection(b, RouteAdminCode(env)).None?
    ensures var r := Signup(db, b, env, salt);
            (r.reply == Reply(400, MsgUserTaken, None) <==> exists k :: k in db.users && db.users[k].email == b.email)
  {
    FindByEmailComplete(db, b.email.value);
  }

  /** POST /login, the login the application serves: the shared rule with this router's
      admin code and `process.env.JWT_SECRET`. */
  function Login(db: Db, b: LoginBody, env: Env): (r: Reply<LoginView>)
    ensures r.data.Some? ==> Truthy(env.jwtSecret) && r.data.value.token.secret == env.jwtSecret.value
  {
    LoginWith(db, b, RouteAdminCode(env), env.jwtSecret)
  }

  /** A successful `/signup` can be followed by a successful `/login` with the same
      credentials, whose token names the new user. */
  lemma SignupThenLogin(db: Db, b: SignupBody, env: Env, salt: nat)
    requires Valid(db)
    requires Signup(db, b, env, salt).reply.status == 201
    ensures var r := Login(Signup(db, b, env, salt).db, LoginBody(b.email, b.password, b.role, b.adminPassword), env);
            r.status == 200 && r.data.value.userId == db.nextUser &&
            r.data.value.token.claims == Signup(db, b, env, salt).reply.data.value.claims
  {
    FindByEmailAfterInsert(db, b.email.value, SignupRow(b, salt));
    CompareHash(b.password.value, b.password.value, salt);
  }

  /** `/signup` signs and `verifyToken` verifies with the same JWT_SECRET, so a signup
      token sent back as a bearer header before it expires lets the new user through. */
  lemma SignupTokenAdmitted(db: Db, b: SignupBody, env: Env, salt: nat, pad: string, query: Field)
    requires Valid(db)
    requires Signup(db, b, env, salt).reply.status == 201
    requires AllSpace(pad)
    ensures var t := Signup(db, b, env, salt).reply.data.value;
            var g := VerifyToken(Request(Some(BearerPrefix + pad + TokenText(t)), query), env.jwtSecret, false);
            g.Next? && g.user.userId == db.nextUser
  {
    var t := Signup(db, b, env, salt).reply.data.value;
    BearerTokenAuthenticates(t, pad, query, env.jwtSecret);
  }

  /** An account made by the controller's registration can log in through `/login`, as
      long as the admin code is not set to the empty string and a signing secret is set. */
  lemma RegisterThenLiveLogin(db: Db, b: RegisterBody, env: Env, salt: nat, adminSalt: nat)
    requires Valid(db)
    requires Register(db, b, env, salt, adminSalt).reply.status == 201
    requires env.adminCode != Some("") && Truthy(env.jwtSecret)
    ensures Login(Register(db, b, env, salt, adminSalt).db, LoginOf(b), env).status == 200
  {
    assert AdminCodeOf(env) == RouteAdminCode(env);
    RegisterThenLogin(db, b, env, salt, adminSalt, RouteAdminCode(env), env.jwtSecret);
  }

  /** With ADMIN_CODE set to "", the two implementations disagree: the controller's gate
      takes any blank admin password, while this router falls back to the default code
      and refuses it. */
  lemma EmptyAdminCodeSplitsGates(env: Env, blank: string)
    requires env.adminCode == Some("")
    requires blank != "" && AllSpace(blank)
    ensures GateOk(Some(blank), AdminCodeOf(env))
    ensures !GateOk(Some(blank), RouteAdminCode(env))
  {
    TrimEmptyIffSpace(blank);
    assert Trim(blank) == "";
    assert AdminCodeOf(env) == "";
    assert RouteAdminCode(env) == DefaultAdminCode;
    assert Trimmed(DefaultAdminCode) by {
      assert DefaultAdminCode[0] == 'T' && DefaultAdminCode[|DefaultAdminCode| - 1] == '1';
    }
    assert Trim(DefaultAdminCode) == DefaultAdminCode;
  }

  /** A row of GET / (admin only): `user_id, name, email, role, phone, description, profile_photo`. */
  datatype UserSummary = UserSummary(userId: nat, name: Field, email: Field, role: Field,
                                     phone: Field, description: Field, profilePhoto: Field)

  function SummaryOf(id: nat, u: User): UserSummary {
    UserSummary(id, u.name, u.email, u.role, u.phone, u.description, u.profilePhoto)
  }

  /** GET /: every user, in key order, projected to the public columns; no password column. */
  function ListUsers(db: Db): (rows: seq<UserSummary>)
    ensures |rows| == |UserIds(db)|
    ensures forall i :: 0 <= i < |rows| ==>
              UserIds(db)[i] in db.users && rows[i] == SummaryOf(UserIds(db)[i], db.users[UserIds(db)[i]])
  {
    var ids := UserIds(db);
    seq(|ids|, i requires 0 <= i < |ids| => SummaryOf(ids[i], db.users[ids[i]]))
  }

  /** In a valid store GET / lists every user exactly once. */
  lemma ListUsersComplete(db: Db, id: nat)
    requires Valid(db) && id in db.users
    ensures exists i :: 0 <= i < |ListUsers(db)| && ListUsers(db)[i] == SummaryOf(id, db.users[id])
    ensures forall i, j :: 0 <= i < j < |ListUsers(db)| ==> ListUsers(db)[i].userId != ListUsers(db)[j].userId
  {
    var ids := UserIds(db);
    assert id < db.nextUser;
    var i :| 0 <= i < |ids| && ids[i] == id;
    assert ListUsers(db)[i] == SummaryOf(id, db.users[id]);
  }

  datatype ProfileUpdate = ProfileUpdate(
    name: Field, email: Field, phone: Field, description: Field, profilePhoto: Field,
    companyId: Option<nat>, companyName: Field, companyLocation: Field, companyPhone: Field)

  /** `company_id` is truthy: present and not 0. */
  predicate IdTruthy(id: Option<nat>) {
    id.Some? && id.value != 0
  }

  /** The user row after the COALESCE update: each NULL parameter keeps the stored value. */
  function CoalescedUser(u: User, b: ProfileUpdate): (u': User)
    ensures u'.name == Coalesce(b.name, u.name) && u'.email == Coalesce(b.email, u.email)
    ensures u'.phone == Coalesce(b.phone, u.phone) && u'.description == Coalesce(b.description, u.description)
    ensures u'.profilePhoto == Coalesce(b.profilePhoto, u.profilePhoto)
    ensures u'.password == u.password && u'.role == u.role && u'.adminPassword == u.adminPassword
    ensures u'.companyInfo == u.companyInfo
  {
    u.(name := Coalesce(b.name, u.name), email := Coalesce(b.email, u.email), phone := Coalesce(b.phone, u.phone),
       description := Coalesce(b.description, u.description), profilePhoto := Coalesce(b.profilePhoto, u.profilePhoto))
  }

  /** The company row after the COALESCE update; the photo comes from the user's `profile_photo`. */
  function CoalescedCompany(c: Company, b: ProfileUpdate): (c': Company)
    ensures c'.name == Coalesce(b.companyName, c.name) && c'.location == Coalesce(b.companyLocation, c.location)
    ensures c'.phone == Coalesce(b.companyPhone, c.phone) && c'.photo == Coalesce(b.profilePhoto, c.photo)
    ensures c'.userId == c.userId && c'.description == c.description
  {
    c.(name := Coalesce(b.companyName, c.name), location := Coalesce(b.companyLocation, c.location),
       phone := Coalesce(b.companyPhone, c.phone), photo := Coalesce(b.profilePhoto, c.photo))
  }

  /** PUT /update-profile for the authenticated `me`. The ownership check compares the
      token's id with itself, so it never refuses; the reply is always 200. */
  function UpdateProfile(db: Db, me: ReqUser, b: ProfileUpdate): (r: Step<()>)
    ensures r.reply == Reply(200, MsgProfileUpdated, None)
    ensures r.db.users.Keys == db.users.Keys && r.db.companies.Keys == db.companies.Keys
    ensures forall k :: k in db.users && k != me.userId ==> r.db.users[k] == db.users[k]
    ensures me.userId in db.users ==> r.db.users[me.userId] == CoalescedUser(db.users[me.userId], b)
    ensures !(IdTruthy(b.companyId) && Truthy(b.companyName)) ==> r.db.companies == db.companies
    ensures forall k :: k in db.companies && Some(k) != b.companyId ==> r.db.companies[k] == db.companies[k]
    ensures IdTruthy(b.companyId) && Truthy(b.companyName) && b.companyId.value in db.companies ==>
            r.db.companies[b.companyId.value] == CoalescedCompany(db.companies[b.companyId.value], b)
    ensures r.db == db.(users := r.db.users, companies := r.db.companies)
  {
    var userId := me.userId;
    if me.userId != userId && me.role != "admin" then Step(Reply(403, MsgProfileForbidden, None), db)
    else
      var users := if userId in db.users then db.users[userId := CoalescedUser(db.users[userId], b)] else db.users;
      var companies :=
        if IdTruthy(b.companyId) && Truthy(b.companyName) && b.companyId.value in db.companies then
          db.companies[b.companyId.value := CoalescedCompany(db.companies[b.companyId.value], b)]
        else db.companies;
      Step(Reply(200, MsgProfileUpdated, None), db.(users := users, companies := companies))
  }

  /** The company update is keyed by `company_id` alone: a request can rewrite the name of a
      company that belongs to another user. */
  lemma UpdateProfileIgnoresCompanyOwner(db: Db, me: ReqUser, b: ProfileUpdate)
    requires IdTruthy(b.companyId) && Truthy(b.companyName) && b.companyId.value in db.companies
    requires db.companies[b.companyId.value].userId != me.userId
    ensures var c := UpdateProfile(db, me, b).db.companies[b.companyId.value];
            c.userId != me.userId && c.name == b.companyName
  {
  }

  /** `db` without user `id` and without every company that user owns. */
  function WithoutUser(db: Db, id: nat): (db': Db)
    ensures db'.users == db.users - {id}
    ensures forall k :: k in db'.companies ==> db'.companies[k].userId != id
    ensures forall k :: k in db.companies ==> (k in db'.companies <==> db.companies[k].userId != id)
    ensures forall k :: k in db'.companies ==> k in db.companies && db'.companies[k] == db.companies[k]
    ensures db' == db.(users := db'.users, companies := db'.companies)
    ensures Valid(db) ==> Valid(db')
  {
    db.(users := db.users - {id},
        companies := map k | k in db.companies && db.companies[k].userId != id :: db.companies[k])
  }

  /** DELETE /:id for the authenticated `me`: 404 for an unknown id, then 403 unless `me`
      is an admin or the account's owner; a permitted delete removes the user's companies
      and then the user. */
  function DeleteUser(db: Db, me: ReqUser, id: nat): (r: Step<()>)
    ensures id !in db.users ==> r == Step(Reply(404, MsgUserNotFound, None), db)
    ensures id in db.users && me.role != "admin" && me.userId != id ==>
            r == Step(Reply(403, MsgDeleteForbidden, None), db)
    ensures r.reply.status == 200 <==> id in db.users && (me.role == "admin" || me.userId == id)
    ensures r.reply.status == 200 ==> r.db == WithoutUser(db, id)
    ensures r.reply.status != 200 ==> r.db == db
  {
    if id !in db.users then Step(Reply(404, MsgUserNotFound, None), db)
    else if me.role != "admin" && me.userId != id then Step(Reply(403, MsgDeleteForbidden, None), db)
    else Step(Reply(200, MsgDeleted, None), WithoutUser(db, id))
  }

  /** Unlike the server's admin delete, this delete takes the user's companies with it:
      for an admin deleting another user who owns a company, the two routes answer alike
      but leave different tables. */
  lemma DeleteRoutesDiffer(db: Db, me: ReqUser, id: nat, k: nat)
    requires me.role == "admin" && me.userId != id && id in db.users
    requires k in db.companies && db.companies[k].userId == id
    ensures var a := DeleteUser(db, me, id);
            var b := ServerRoutes.AdminDeleteUser(db, me, id);
            && a.reply.status == 200 && b.reply.status == 200
            && a.db.users == b.db.users
            && k !in a.db.companies && k in b.db.companies
  {
  }
}
