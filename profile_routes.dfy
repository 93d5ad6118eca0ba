/**
 * The profile router: an upload endpoint that only reports the file's URL, and a
 * profile read that answers with empty strings in place of missing values.
 */
module ProfileRoutes {
  import opened Js
  import opened Tables
  import opened AuthMiddleware
  import ServerRoutes

  const MsgUploadFailed := "No se pudo subir la imagen"
  const MsgUserNotFound := "Usuario no encontrado"

  /** POST /upload: 400 without a file, otherwise `{ fileUrl }`. Nothing is written. */
  function UploadFileUrl(file: Field, backendUrl: Field): (r: Reply<string>)
    ensures file.None? ==> r == Reply(400, MsgUploadFailed, None)
    ensures file.Some? ==> r == Reply(200, "", Some(ServerRoutes.UploadUrl(backendUrl, file.value)))
  {
    match file
    case None => Reply(400, MsgUploadFailed, None)
    case Some(filename) => Reply(200, "", Some(ServerRoutes.UploadUrl(backendUrl, filename)))
  }

  /** The `companyInfo` object of the profile: the five company columns. */
  datatype CompanyInfo = CompanyInfo(name: Field, description: Field, location: Field, phone: Field, photo: Field)

  const NoCompany := CompanyInfo(Some(""), Some(""), Some(""), Some(""), Some(""))

  /** The body of GET /profile: user columns with `|| ""` applied, and the company. */
  datatype ProfileView = ProfileView(
    userId: nat, name: string, email: string, phone: string, description: string, profilePhoto: string,
    companyInfo: CompanyInfo)

  function InfoOf(c: Company): CompanyInfo {
    CompanyInfo(c.name, c.description, c.location, c.phone, c.photo)
  }

  /** GET /profile for `me`: 404 without a user row; otherwise the user's columns, each
      falling back to "" when it is NULL or empty, and the first company of the user or,
      when there is none, a company of empty strings. */
  function GetProfile(db: Db, me: ReqUser): (r: Reply<ProfileView>)
    ensures me.userId !in db.users ==> r == Reply(404, MsgUserNotFound, None)
    ensures me.userId in db.users ==>
            var u := db.users[me.userId];
            && r.status == 200 && r.data.Some?
            && r.data.value.userId == me.userId
            && r.data.value.name == OrEmpty(u.name) && r.data.value.email == OrEmpty(u.email)
            && r.data.value.phone == OrEmpty(u.phone) && r.data.value.description == OrEmpty(u.description)
            && r.data.value.profilePhoto == OrEmpty(u.profilePhoto)
    ensures r.data.Some? ==>
            (FirstCompanyOf(db, me.userId).None? ==> r.data.value.companyInfo == NoCompany) &&
            (FirstCompanyOf(db, me.userId).Some? ==>
               r.data.value.companyInfo == InfoOf(db.companies[FirstCompanyOf(db, me.userId).value]))
  {
    if me.userId !in db.users then Reply(404, MsgUserNotFound, None)
    else
      var u := db.users[me.userId];
      var c := FirstCompanyOf(db, me.userId);
      var info := if c.Some? then InfoOf(db.companies[c.value]) else NoCompany;
      Reply(200, "", Some(ProfileView(me.userId, OrEmpty(u.name), OrEmpty(u.email), OrEmpty(u.phone),
                                      OrEmpty(u.description), OrEmpty(u.profilePhoto), info)))
  }

  /** This profile read and the server's own agree on every value that is set: they
      differ only in how they show what is missing. */
  lemma ProfileReadsAgree(db: Db, me: ReqUser)
    requires me.userId in db.users
    ensures var a := GetProfile(db, me).data.value;
            var b := ServerRoutes.GetProfile(db, me).data.value;
            && a.name == OrEmpty(b.name) && a.email == OrEmpty(b.email) && a.phone == OrEmpty(b.phone)
            && a.description == OrEmpty(b.description) && a.profilePhoto == OrEmpty(b.profilePhoto)
            && (FirstCompanyOf(db, me.userId).Some? ==>
                  a.companyInfo == CompanyInfo(b.companyName, b.companyDescription, b.companyLocation,
                                               b.companyPhone, b.companyPhoto))
  {
  }

  /** This router's upload and the server's answer the same URL for the same file, and
      refuse a missing file alike with 400. */
  lemma UploadUrlsAgree(db: Db, me: ReqUser, file: Field, backendUrl: Field)
    ensures UploadFileUrl(file, backendUrl).data == ServerRoutes.Upload(db, me, file, backendUrl).reply.data
    ensures UploadFileUrl(file, backendUrl).status == ServerRoutes.Upload(db, me, file, backendUrl).reply.status
  {
  }
}
