/**
 * The handlers the server entry point defines itself: the profile read
 * (users LEFT JOIN companies), the profile write with the company upsert, the
 * photo upload, and the admin user list and delete.
 */
module ServerRoutes {
  import opened Js
  import opened Tables
  import opened AuthMiddleware

  const DefaultBackendUrl := "http://localhost:5000"
  const MsgUserNotFound := "Usuario no encontrado."
  const MsgProfileSaved := "Perfil y empresa actualizados exitosamente."
  const MsgNoImage := "No se subió ninguna imagen."
  const MsgImageUploaded := "Imagen subida correctamente"
  const MsgNoSelfDelete := "No puedes eliminar tu propia cuenta."
  const MsgUserDeleted := "Usuario eliminado exitosamente."

  /** `${BACKEND_URL || "http://localhost:5000"}/uploads/${filename}`. */
  function UploadUrl(backendUrl: Field, filename: string): (url: string)
    ensures Truthy(backendUrl) ==> url == backendUrl.value + "/uploads/" + filename
    ensures !Truthy(backendUrl) ==> url == DefaultBackendUrl + "/uploads/" + filename
  {
    Or(backendUrl, Some(DefaultBackendUrl)).value + "/uploads/" + filename
  }

  /** The first row of GET /api/profile: the user's columns and those of a joined company,
      all NULL when the user owns none. */
  datatype ProfileRow = ProfileRow(
    userId: nat, name: Field, email: Field, role: Field, phone: Field, profilePhoto: Field, description: Field,
    companyName: Field, companyDescription: Field, companyLocation: Field, companyPhone: Field, companyPhoto: Field)

  function JoinRow(id: nat, u: User, c: Option<Company>): ProfileRow {
    match c
    case None => ProfileRow(id, u.name, u.email, u.role, u.phone, u.profilePhoto, u.description, None, None, None, None, None)
    case Some(c) => ProfileRow(id, u.name, u.email, u.role, u.phone, u.profilePhoto, u.description,
                               c.name, c.description, c.location, c.phone, c.photo)
  }

  /** GET /api/profile for `me`: 404 without a user row; otherwise the user joined with
      their first company, if any. It only reads the tables. */
  function GetProfile(db: Db, me: ReqUser): (r: Reply<ProfileRow>)
    ensures me.userId !in db.users ==> r == Reply(404, MsgUserNotFound, None)
    ensures me.userId in db.users ==> r.status == 200 && r.data.Some?
    ensures r.data.Some? ==>
            var u := db.users[me.userId];
            var p := r.data.value;
            && p.userId == me.userId && p.name == u.name && p.email == u.email && p.role == u.role
            && p.phone == u.phone && p.profilePhoto == u.profilePhoto && p.description == u.description
    ensures r.data.Some? && FirstCompanyOf(db, me.userId).None? ==>
            var p := r.data.value;
            && p.companyName.None? && p.companyDescription.None? && p.companyLocation.None?
            && p.companyPhone.None? && p.companyPhoto.None?
    ensures r.data.Some? && FirstCompanyOf(db, me.userId).Some? ==>
            var c := db.companies[FirstCompanyOf(db, me.userId).value];
            var p := r.data.value;
            && c.userId == me.userId
            && p.companyName == c.name && p.companyDescription == c.description && p.companyLocation == c.location
            && p.companyPhone == c.phone && p.companyPhoto == c.photo
  {
    if me.userId !in db.users then Reply(404, MsgUserNotFound, None)
    else
      var c := FirstCompanyOf(db, me.userId);
      Reply(200, "", Some(JoinRow(me.userId, db.users[me.userId], if c.Some? then Some(db.companies[c.value]) else None)))
  }

  datatype ProfileWrite = ProfileWrite(
    name: Field, email: Field, description: Field, phone: Field, profilePhoto: Field,
    companyName: Field, companyDescription: Field, companyLocation: Field, companyPhone: Field, companyPhoto: Field)

  /** The company columns of the request, for the user `owner`. */
  function CompanyOf(owner: nat, b: ProfileWrite): Company {
    Company(owner, b.companyName, b.companyDescription, b.companyLocation, b.companyPhone, b.companyPhoto)
  }

  /** `UPDATE companies SET ... WHERE user_id = owner`: every row of `owner` becomes `row`. */
  function SetCompaniesOf(companies: map<nat, Company>, owner: nat, row: Company): (m: map<nat, Company>)
    ensures m.Keys == companies.Keys
    ensures forall k :: k in m && companies[k].userId == owner ==> m[k] == row
    ensures forall k :: k in m && companies[k].userId != owner ==> m[k] == companies[k]
  {
    map k | k in companies :: if companies[k].userId == owner then row else companies[k]
  }

  /** `UPDATE users SET name, email, description, phone, profile_photo WHERE user_id = id`. */
  function OverwriteUser(users: map<nat, User>, id: nat, b: ProfileWrite): (m: map<nat, User>)
    ensures m.Keys == users.Keys
    ensures forall k :: k in users && k != id ==> m[k] == users[k]
    ensures id in users ==>
            m[id] == users[id].(name := b.name, email := b.email, description := b.description,
                                phone := b.phone, profilePhoto := b.profilePhoto)
  {
    if id in users then
      users[id := users[id].(name := b.name, email := b.email, description := b.description,
                             phone := b.phone, profilePhoto := b.profilePhoto)]
    else users
  }

  /** PUT /api/profile for `me`: overwrites five user columns with the request's values
      (an absent one becomes NULL), then updates every company row of `me` when there is
      one and inserts one otherwise. */
  function PutProfile(db: Db, me: ReqUser, b: ProfileWrite): (r: Step<()>)
    ensures r.reply == Reply(200, MsgProfileSaved, None)
    ensures r.db.users == OverwriteUser(db.users, me.userId, b)
    ensures r.db == db.(users := r.db.users, companies := r.db.companies, nextCompany := r.db.nextCompany)
    ensures exists k :: k in r.db.companies && r.db.companies[k] == CompanyOf(me.userId, b)
    ensures FirstCompanyOf(db, me.userId).Some? ==>
            r.db.companies == SetCompaniesOf(db.companies, me.userId, CompanyOf(me.userId, b)) &&
            r.db.nextCompany == db.nextCompany
    ensures FirstCompanyOf(db, me.userId).None? ==>
            r.db.companies == db.companies[db.nextCompany := CompanyOf(me.userId, b)] &&
            r.db.nextCompany == db.nextCompany + 1
    ensures Valid(db) ==> forall k :: k in db.companies && db.companies[k].userId != me.userId ==>
              k in r.db.companies && r.db.companies[k] == db.companies[k]
    ensures Valid(db) ==> Valid(r.db)
  {
    var users := OverwriteUser(db.users, me.userId, b);
    var row := CompanyOf(me.userId, b);
    var first := FirstCompanyOf(db, me.userId);
    if first.Some? then
      var companies := SetCompaniesOf(db.companies, me.userId, row);
      assert companies[first.value] == row;
      Step(Reply(200, MsgProfileSaved, None), db.(users := users, companies := companies))
    else
      var companies := db.companies[db.nextCompany := row];
      assert companies[db.nextCompany] == row;
      Step(Reply(200, MsgProfileSaved, None), db.(users := users, companies := companies, nextCompany := db.nextCompany + 1))
  }

  /** After PUT /api/profile, GET /api/profile shows what was written: the five user
      columns and the company columns, whether the company was updated or inserted. */
  lemma PutThenGetProfile(db: Db, me: ReqUser, b: ProfileWrite)
    requires Valid(db) && me.userId in db.users
    ensures var p := GetProfile(PutProfile(db, me, b).db, me);
            && p.status == 200 && p.data.Some?
            && p.data.value.name == b.name && p.data.value.email == b.email && p.data.value.phone == b.phone
            && p.data.value.description == b.description && p.data.value.profilePhoto == b.profilePhoto
            && p.data.value.companyName == b.companyName && p.data.value.companyDescription == b.companyDescription
            && p.data.value.companyLocation == b.companyLocation && p.data.value.companyPhone == b.companyPhone
            && p.data.value.companyPhoto == b.companyPhoto
  {
    var db' := PutProfile(db, me, b).db;
    var row := CompanyOf(me.userId, b);
    var c := FirstCompanyOf(db', me.userId);
    match FirstCompanyOf(db, me.userId)
    case Some(first) =>
      assert first in db'.companies && db'.companies[first].userId == me.userId;
      assert c.Some? && db'.companies[c.value] == row;
    case None =>
      assert db'.companies[db.nextCompany] == row;
      assert c.Some?;
      assert c.value == db.nextCompany;
  }

  /** POST /api/upload for `me`: 400 without a file; otherwise the user's photo becomes
      the upload URL, which is returned. */
  function Upload(db: Db, me: ReqUser, file: Field, backendUrl: Field): (r: Step<string>)
    ensures file.None? ==> r == Step(Reply(400, MsgNoImage, None), db)
    ensures file.Some? ==>
            && r.reply == Reply(200, MsgImageUploaded, Some(UploadUrl(backendUrl, file.value)))
            && (me.userId in db.users ==>
                r.db == db.(users := db.users[me.userId := db.users[me.userId].(profilePhoto := Some(UploadUrl(backendUrl, file.value)))]))
            && (me.userId !in db.users ==> r.db == db)
  {
    match file
    case None => Step(Reply(400, MsgNoImage, None), db)
    case Some(filename) =>
      var url := UploadUrl(backendUrl, filename);
      var users := if me.userId in db.users then db.users[me.userId := db.users[me.userId].(profilePhoto := Some(url))] else db.users;
      Step(Reply(200, MsgImageUploaded, Some(url)), db.(users := users))
  }

  /** After an upload, the profile read shows the uploaded image's URL as the photo. */
  lemma UploadThenGetProfile(db: Db, me: ReqUser, filename: string, backendUrl: Field)
    requires me.userId in db.users
    ensures var r := Upload(db, me, Some(filename), backendUrl);
            GetProfile(r.db, me).data.value.profilePhoto == r.reply.data
  {
  }

  /** A row of GET /api/users (admin only): `user_id, name, email, role`. */
  datatype AccountRow = AccountRow(userId: nat, name: Field, email: Field, role: Field)

  /** GET /api/users: every user in key order, projected to four columns. */
  function AdminListUsers(db: Db): (rows: seq<AccountRow>)
    ensures |rows| == |UserIds(db)|
    ensures forall i :: 0 <= i < |rows| ==>
              var id := UserIds(db)[i];
              id in db.users && rows[i] == AccountRow(id, db.users[id].name, db.users[id].email, db.users[id].role)
  {
    var ids := UserIds(db);
    seq(|ids|, i requires 0 <= i < |ids| => AccountRow(ids[i], db.users[ids[i]].name, db.users[ids[i]].email, db.users[ids[i]].role))
  }

  /** In a valid store GET /api/users lists every user. */
  lemma AdminListUsersComplete(db: Db, id: nat)
    requires Valid(db) && id in db.users
    ensures exists i :: 0 <= i < |AdminListUsers(db)| && AdminListUsers(db)[i].userId == id
  {
    var ids := UserIds(db);
    assert id < db.nextUser;
    var i :| 0 <= i < |ids| && ids[i] == id;
    assert AdminListUsers(db)[i].userId == id;
  }

  /** DELETE /api/users/:id by the admin `me`: an admin cannot delete their own account
      (checked first, before any read); a missing id is 404; otherwise exactly that user
      row is removed and nothing else changes. */
  function AdminDeleteUser(db: Db, me: ReqUser, id: nat): (r: Step<()>)
    ensures me.userId == id ==> r == Step(Reply(403, MsgNoSelfDelete, None), db)
    ensures me.userId != id && id !in db.users ==> r == Step(Reply(404, MsgUserNotFound, None), db)
    ensures r.reply.status == 200 <==> me.userId != id && id in db.users
    ensures r.reply.status == 200 ==> r.db == db.(users := db.users - {id})
    ensures r.reply.status != 200 ==> r.db == db
    ensures me.userId in db.users ==> me.userId in r.db.users
  {
    if me.userId == id then Step(Reply(403, MsgNoSelfDelete, None), db)
    else if id !in db.users then Step(Reply(404, MsgUserNotFound, None), db)
    else Step(Reply(200, MsgUserDeleted, None), db.(users := db.users - {id}))
  }

  /** The admin delete removes only the user row: the companies the user owned stay,
      and a profile read for the removed id answers 404. */
  lemma AdminDeleteKeepsCompanies(db: Db, me: ReqUser, id: nat)
    requires AdminDeleteUser(db, me, id).reply.status == 200
    ensures var db' := AdminDeleteUser(db, me, id).db;
            && db'.companies == db.companies
            && GetProfile(db', ReqUser(id, me.email, me.role)).status == 404
  {
  }
}
