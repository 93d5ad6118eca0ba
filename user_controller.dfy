/**
 * The user controller: list, lookup by id, plain creation and the
 * falsy-fallback (`||`) profile update.
 */
module UserController {
  import opened Js
  import opened Crypto
  import opened Tables
  import opened AuthMiddleware

  const MsgNotFound := "Usuario no encontrado"
  const MsgCreated := "Usuario creado con éxito"
  const MsgNotUpdated := "No se pudieron actualizar los datos"
  const MsgUpdated := "Datos actualizados con éxito"

  /** `getUsers`: every row, with every column, in key order. */
  function GetUsers(db: Db): (rows: seq<(nat, User)>)
    ensures |rows| == |UserIds(db)|
    ensures forall i :: 0 <= i < |rows| ==> rows[i].0 in db.users && rows[i].1 == db.users[rows[i].0]
    ensures forall i, j :: 0 <= i < j < |rows| ==> rows[i].0 < rows[j].0
  {
    var ids := UserIds(db);
    seq(|ids|, i requires 0 <= i < |ids| => (ids[i], db.users[ids[i]]))
  }

  /** In a valid store `getUsers` returns every row. */
  lemma GetUsersComplete(db: Db, id: nat)
    requires Valid(db) && id in db.users
    ensures (id, db.users[id]) in GetUsers(db)
  {
    var ids := UserIds(db);
    assert id < db.nextUser;
    var i :| 0 <= i < |ids| && ids[i] == id;
    assert GetUsers(db)[i] == (id, db.users[id]);
  }

  /** `getUserById`: the row when the id exists, else 404. */
  function GetUserById(db: Db, id: nat): (r: Reply<User>)
    ensures id in db.users ==> r == Reply(200, "", Some(db.users[id]))
    ensures id !in db.users ==> r == Reply(404, MsgNotFound, None)
  {
    if id in db.users then Reply(200, "", Some(db.users[id])) else Reply(404, MsgNotFound, None)
  }

  /** The row `createUser` inserts: the password column holds the text as supplied. */
  function CreatedRow(name: Field, email: Field, password: Field): (u: User)
    ensures u.name == name && u.email == email
    ensures password.Some? ==> u.password == Some(Raw(password.value))
    ensures password.None? ==> u.password.None?
    ensures u.role.None? && u.adminPassword.None? && u.phone.None? && u.description.None?
    ensures u.profilePhoto.None? && u.companyInfo.None?
  {
    User(name, email, if password.Some? then Some(Raw(password.value)) else None, None, None, None, None, None, None)
  }

  /** `createUser`: always inserts exactly one row, storing the password unhashed, and
      answers 201 with the new key. */
  function CreateUser(db: Db, name: Field, email: Field, password: Field): (r: Step<nat>)
    ensures r.reply == Reply(201, MsgCreated, Some(db.nextUser))
    ensures r.db == db.(users := db.users[db.nextUser := CreatedRow(name, email, password)], nextUser := db.nextUser + 1)
    ensures Valid(db) ==> Valid(r.db) && db.nextUser !in db.users && |r.db.users| == |db.users| + 1
    ensures password.Some? ==> r.db.users[db.nextUser].password == Some(Raw(password.value))
  {
    Step(Reply(201, MsgCreated, Some(db.nextUser)),
         db.(users := db.users[db.nextUser := CreatedRow(name, email, password)], nextUser := db.nextUser + 1))
  }

  /** A user created this way keeps the password text as supplied, and compare accepts an
      attempt exactly when that text is laid out as a bcrypt hash of the attempt. The
      supplied password itself, when it has at most 72 characters, is always refused. */
  lemma CreatedUserPasswordCompare(db: Db, name: Field, email: Field, password: string, attempt: string)
    ensures var r := CreateUser(db, name, email, Some(password));
            Compare(Some(attempt), r.db.users[db.nextUser].password) == Some(true) <==>
            exists salt :: password == HashText(attempt, salt)
    ensures var r := CreateUser(db, name, email, Some(password));
            |password| <= KeyLength ==> Compare(Some(password), r.db.users[db.nextUser].password) == Some(false)
  {
    CompareRaw(attempt, password);
    CompareRaw(password, password);
    if |password| <= KeyLength {
      forall salt
        ensures password != HashText(password, salt)
      {
        assert |HashText(password, salt)| > |Key(password)| == |password|;
      }
    }
  }

  /** The request of `updateUser`; `companyInfo` is the JSON text of a truthy
      `companyInfo` value, None when it is absent or falsy. */
  datatype UserUpdate = UserUpdate(name: Field, email: Field, description: Field, phone: Field, companyInfo: Field)

  /** The row after `updateUser`: a truthy field replaces the stored value, a falsy one keeps it. */
  function MergedUser(u: User, b: UserUpdate): (u': User)
    ensures u'.name == Or(b.name, u.name) && u'.email == Or(b.email, u.email)
    ensures u'.description == Or(b.description, u.description) && u'.phone == Or(b.phone, u.phone)
    ensures u'.companyInfo == Coalesce(b.companyInfo, u.companyInfo)
    ensures u'.password == u.password && u'.role == u.role && u'.profilePhoto == u.profilePhoto
  {
    u.(name := Or(b.name, u.name), email := Or(b.email, u.email), description := Or(b.description, u.description),
       phone := Or(b.phone, u.phone), companyInfo := Coalesce(b.companyInfo, u.companyInfo))
  }

  /** `updateUser` for the authenticated `me`: 404 when the row is gone; otherwise only
      that row is rewritten. The UPDATE matches the row just read, so the 400 branch for
      zero affected rows is never taken. */
  function UpdateUser(db: Db, me: ReqUser, b: UserUpdate): (r: Step<()>)
    ensures me.userId !in db.users ==> r == Step(Reply(404, MsgNotFound, None), db)
    ensures me.userId in db.users ==>
            r == Step(Reply(200, MsgUpdated, None), db.(users := db.users[me.userId := MergedUser(db.users[me.userId], b)]))
    ensures r.reply.status != 400
  {
    if me.userId !in db.users then Step(Reply(404, MsgNotFound, None), db)
    else
      var affectedRows := if me.userId in db.users then 1 else 0;
      if affectedRows == 0 then Step(Reply(400, MsgNotUpdated, None), db)
      else Step(Reply(200, MsgUpdated, None), db.(users := db.users[me.userId := MergedUser(db.users[me.userId], b)]))
  }

  /** With `||` an empty string cannot clear a field: the stored value stays. */
  lemma EmptyStringKeepsValue(db: Db, me: ReqUser, b: UserUpdate)
    requires me.userId in db.users
    requires b.name == Some("") && b.phone == Some("")
    ensures var u := UpdateUser(db, me, b).db.users[me.userId];
            u.name == db.users[me.userId].name && u.phone == db.users[me.userId].phone
  {
  }

  /** The key `createUser` answers with finds the row it inserted. */
  lemma CreateThenGet(db: Db, name: Field, email: Field, password: Field)
    ensures var r := CreateUser(db, name, email, password);
            GetUserById(r.db, r.reply.data.value) == Reply(200, "", Some(CreatedRow(name, email, password)))
  {
  }
}
