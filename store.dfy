/**
 * The database the handlers share, as an object whose tables the writing handlers
 * update statement by statement, in the order the handlers issue their queries.
 * Each writing handler is proved to produce the reply and the tables of the
 * corresponding specification function; the read-only handlers are those
 * functions applied to `Snapshot()`.
 */
module Store {
  import opened Js
  import opened Crypto
  import opened Tables
  import opened AuthMiddleware
  import AuthService
  import UserRoutes
  import UserController
  import ServerRoutes
  import Programs

  class Database {
    var users: map<nat, User>
    var nextUser: nat
    var resets: map<nat, ResetRow>
    var nextReset: nat
    var companies: map<nat, Company>
    var nextCompany: nat
    var programs: map<nat, Program>
    var nextProgram: nat

    /** The four tables as a value. */
    function Snapshot(): Db
      reads this
    {
      Db(users, nextUser, resets, nextReset, companies, nextCompany, programs, nextProgram)
    }

    ghost predicate Valid()
      reads this
    {
      Tables.Valid(Snapshot())
    }

    /** Empty tables whose keys start at 1. */
    constructor ()
      ensures Valid()
      ensures Snapshot() == Db(map[], 1, map[], 1, map[], 1, map[], 1)
    {
      users, resets, companies, programs := map[], map[], map[], map[];
      nextUser, nextReset, nextCompany, nextProgram := 1, 1, 1, 1;
    }

    /** `INSERT INTO users`: the row goes under the next key, which is returned as `insertId`. */
    method InsertUser(row: User) returns (insertId: nat)
      modifies this
      ensures insertId == old(nextUser)
      ensures Snapshot() == AuthService.InsertUser(old(Snapshot()), row)
    {
      insertId := nextUser;
      users := users[insertId := row];
      nextUser := nextUser + 1;
    }

    /** `registerUser`: validate, look the email up, insert the hashed row, sign. */
    method Register(b: AuthService.RegisterBody, env: Env, salt: nat, adminSalt: nat)
      returns (reply: Reply<AuthService.Registered>)
      requires Valid()
      modifies this
      ensures Valid()
      ensures reply == AuthService.Register(old(Snapshot()), b, env, salt, adminSalt).reply
      ensures Snapshot() == AuthService.Register(old(Snapshot()), b, env, salt, adminSalt).db
    {
      var rejection := AuthService.RegisterRejection(b, AuthService.AdminCodeOf(env));
      if rejection.Some? {
        return Reply(400, rejection.value, None);
      }
      if FindByEmail(Snapshot(), b.email).Some? {
        return Reply(400, AuthService.MsgEmailTaken, None);
      }
      var id := InsertUser(AuthService.RegisteredRow(b, salt, adminSalt));
      var token := Sign(Claims(id, b.email, b.role), AuthService.SecretOf(env), AuthService.RegisterExpiry);
      if token.None? {
        return Reply(500, ServerError, None);
      }
      reply := Reply(201, AuthService.MsgRegistered,
                     Some(AuthService.Registered(token.value, AuthService.UserView(id, b.name.value, b.email.value))));
    }

    /** `forgotPassword`: look the email up, insert the reset row, then hand the mail
        over; `mail` is what `sendMail` was given, if it was called. */
    method ForgotPassword(email: Field, now: int, random: seq<byte>, mailDelivered: bool)
      returns (reply: Reply<()>, mail: Option<AuthService.Mail>)
      requires Valid()
      modifies this
      ensures Valid()
      ensures reply == AuthService.ForgotPassword(old(Snapshot()), email, now, random, mailDelivered).reply
      ensures mail == AuthService.ForgotPassword(old(Snapshot()), email, now, random, mailDelivered).mail
      ensures Snapshot() == AuthService.ForgotPassword(old(Snapshot()), email, now, random, mailDelivered).db
    {
      if !Truthy(email) {
        return Reply(400, AuthService.MsgEmailRequired, None), None;
      }
      var found := FindByEmail(Snapshot(), email);
      if found.None? {
        return Reply(404, AuthService.MsgNoSuchEmail, None), None;
      }
      var token := Hex(random);
      resets := resets[nextReset := ResetRow(found.value, token, now + AuthService.ResetLifetime)];
      nextReset := nextReset + 1;
      mail := Some(AuthService.Mail(email.value, AuthService.ResetSubject, AuthService.ResetLinkPrefix + token));
      if !mailDelivered {
        return Reply(500, ServerError, None), mail;
      }
      reply := Reply(200, AuthService.MsgMailSent, None);
    }

    /** `resetPassword`: find the token, check expiry and length, update the owner's
        password, then delete the consumed reset row by its id. */
    method ResetPassword(token: Field, newPassword: Field, now: int, salt: nat) returns (reply: Reply<()>)
      requires Valid()
      modifies this
      ensures Valid()
      ensures reply == AuthService.ResetPassword(old(Snapshot()), token, newPassword, now, salt).reply
      ensures Snapshot() == AuthService.ResetPassword(old(Snapshot()), token, newPassword, now, salt).db
    {
      if !Truthy(token) || !Truthy(newPassword) {
        return Reply(400, AuthService.MsgResetRequired, None);
      }
      var found := FindReset(Snapshot(), token.value);
      if found.None? {
        return Reply(400, AuthService.MsgInvalidToken, None);
      }
      var row := resets[found.value];
      if row.expiresAt < now {
        return Reply(400, AuthService.MsgExpired, None);
      }
      if |newPassword.value| < 6 {
        return Reply(400, AuthService.MsgNewShort, None);
      }
      var hashed := Hash(newPassword.value, salt);
      if row.userId in users {
        users := users[row.userId := users[row.userId].(password := Some(hashed))];
      }
      resets := resets - {found.value};
      reply := Reply(200, AuthService.MsgReset, None);
    }

    /** POST /signup: validate, look the email up, insert, then sign. */
    method Signup(b: UserRoutes.SignupBody, env: Env, salt: nat) returns (reply: Reply<SessionToken>)
      requires Valid()
      modifies this
      ensures Valid()
      ensures reply == UserRoutes.Signup(old(Snapshot()), b, env, salt).reply
      ensures Snapshot() == UserRoutes.Signup(old(Snapshot()), b, env, salt).db
    {
      var rejection := UserRoutes.SignupRejection(b, UserRoutes.RouteAdminCode(env));
      if rejection.Some? {
        return Reply(400, rejection.value, None);
      }
      if FindByEmail(Snapshot(), b.email).Some? {
        return Reply(400, UserRoutes.MsgUserTaken, None);
      }
      var id := InsertUser(UserRoutes.SignupRow(b, salt));
      var token := Sign(Claims(id, b.email, b.role), env.jwtSecret, UserRoutes.SignupExpiry);
      if token.None? {
        return Reply(500, ServerError, None);
      }
      reply := Reply(201, AuthService.MsgRegistered, Some(token.value));
    }

    /** PUT /update-profile: the COALESCE update of the user, then of the named company. */
    method UpdateProfile(me: ReqUser, b: UserRoutes.ProfileUpdate) returns (reply: Reply<()>)
      requires Valid()
      modifies this
      ensures Valid()
      ensures reply == UserRoutes.UpdateProfile(old(Snapshot()), me, b).reply
      ensures Snapshot() == UserRoutes.UpdateProfile(old(Snapshot()), me, b).db
    {
      var userId := me.userId;
      if userId in users {
        users := users[userId := UserRoutes.CoalescedUser(users[userId], b)];
      }
      if UserRoutes.IdTruthy(b.companyId) && Truthy(b.companyName) && b.companyId.value in companies {
        companies := companies[b.companyId.value := UserRoutes.CoalescedCompany(companies[b.companyId.value], b)];
      }
      reply := Reply(200, UserRoutes.MsgProfileUpdated, None);
    }

    /** DELETE /:id: look the user up, check permission, delete the user's companies and
        then the user. */
    method DeleteUser(me: ReqUser, id: nat) returns (reply: Reply<()>)
      requires Valid()
      modifies this
      ensures Valid()
      ensures reply == UserRoutes.DeleteUser(old(Snapshot()), me, id).reply
      ensures Snapshot() == UserRoutes.DeleteUser(old(Snapshot()), me, id).db
    {
      if id !in users {
        return Reply(404, AuthService.MsgUserNotFound, None);
      }
      if me.role != "admin" && me.userId != id {
        return Reply(403, UserRoutes.MsgDeleteForbidden, None);
      }
      companies := map k | k in companies && companies[k].userId != id :: companies[k];
      users := users - {id};
      reply := Reply(200, UserRoutes.MsgDeleted, None);
    }

    /** `createUser`: one INSERT. */
    method CreateUser(name: Field, email: Field, password: Field) returns (reply: Reply<nat>)
      requires Valid()
      modifies this
      ensures Valid()
      ensures reply == UserController.CreateUser(old(Snapshot()), name, email, password).reply
      ensures Snapshot() == UserController.CreateUser(old(Snapshot()), name, email, password).db
    {
      var id := InsertUser(UserController.CreatedRow(name, email, password));
      reply := Reply(201, UserController.MsgCreated, Some(id));
    }

    /** `updateUser`: read the row, merge with `||`, write it back, check affected rows. */
    method UpdateUser(me: ReqUser, b: UserController.UserUpdate) returns (reply: Reply<()>)
      requires Valid()
      modifies this
      ensures Valid()
      ensures reply == UserController.UpdateUser(old(Snapshot()), me, b).reply
      ensures Snapshot() == UserController.UpdateUser(old(Snapshot()), me, b).db
    {
      if me.userId !in users {
        return Reply(404, UserController.MsgNotFound, None);
      }
      var current := users[me.userId];
      var affectedRows := 0;
      if me.userId in users {
        users := users[me.userId := UserController.MergedUser(current, b)];
        affectedRows := 1;
      }
      if affectedRows == 0 {
        return Reply(400, UserController.MsgNotUpdated, None);
      }
      reply := Reply(200, UserController.MsgUpdated, None);
    }

    /** PUT /api/profile: overwrite the user's columns, then update every company of the
        user or insert one. */
    method PutProfile(me: ReqUser, b: ServerRoutes.ProfileWrite) returns (reply: Reply<()>)
      requires Valid()
      modifies this
      ensures Valid()
      ensures reply == ServerRoutes.PutProfile(old(Snapshot()), me, b).reply
      ensures Snapshot() == ServerRoutes.PutProfile(old(Snapshot()), me, b).db
    {
      var userId := me.userId;
      users := ServerRoutes.OverwriteUser(users, userId, b);
      var row := ServerRoutes.CompanyOf(userId, b);
      if FirstCompanyOf(Snapshot(), userId).Some? {
        companies := ServerRoutes.SetCompaniesOf(companies, userId, row);
      } else {
        companies := companies[nextCompany := row];
        nextCompany := nextCompany + 1;
      }
      reply := Reply(200, ServerRoutes.MsgProfileSaved, None);
    }

    /** POST /api/upload: with a file, set the user's photo to its URL. */
    method Upload(me: ReqUser, file: Field, backendUrl: Field) returns (reply: Reply<string>)
      requires Valid()
      modifies this
      ensures Valid()
      ensures reply == ServerRoutes.Upload(old(Snapshot()), me, file, backendUrl).reply
      ensures Snapshot() == ServerRoutes.Upload(old(Snapshot()), me, file, backendUrl).db
    {
      if file.None? {
        return Reply(400, ServerRoutes.MsgNoImage, None);
      }
      var url := ServerRoutes.UploadUrl(backendUrl, file.value);
      if me.userId in users {
        users := users[me.userId := users[me.userId].(profilePhoto := Some(url))];
      }
      reply := Reply(200, ServerRoutes.MsgImageUploaded, Some(url));
    }

    /** DELETE /api/users/:id (admin): refuse self-deletion, look the user up, delete the row. */
    method AdminDeleteUser(me: ReqUser, id: nat) returns (reply: Reply<()>)
      requires Valid()
      modifies this
      ensures Valid()
      ensures reply == ServerRoutes.AdminDeleteUser(old(Snapshot()), me, id).reply
      ensures Snapshot() == ServerRoutes.AdminDeleteUser(old(Snapshot()), me, id).db
    {
      if me.userId == id {
        return Reply(403, ServerRoutes.MsgNoSelfDelete, None);
      }
      if id !in users {
        return Reply(404, ServerRoutes.MsgUserNotFound, None);
      }
      users := users - {id};
      reply := Reply(200, ServerRoutes.MsgUserDeleted, None);
    }

    /** Starting a program (router or controller, by `started`): validate, then insert. */
    method StartProgram(duration: Scalar, mode: Scalar, started: string) returns (reply: Reply<nat>)
      requires Valid()
      modifies this
      ensures Valid()
      ensures reply == Programs.Start(old(Snapshot()), duration, mode, started).reply
      ensures Snapshot() == Programs.Start(old(Snapshot()), duration, mode, started).db
    {
      if !ScalarTruthy(duration) || !ScalarTruthy(mode) {
        return Reply(400, Programs.MsgRequired, None);
      }
      var id := nextProgram;
      programs := programs[id := Program(duration, mode, 1)];
      nextProgram := nextProgram + 1;
      reply := Reply(201, started, Some(id));
    }
  }
}
