/**
 * The relational store as values: the `users`, `password_resets`, `companies`
 * and `programs` tables, each a map from its auto-increment primary key to its
 * row, with the next key to hand out. Also the reply every handler produces.
 */
module Tables {
  import opened Js
  import opened Crypto

  /** A row of `users`. Nullable columns are Fields; a column an INSERT does not name is NULL. */
  datatype User = User(
    name: Field,
    email: Field,
    password: Option<Secret>,
    role: Field,
    adminPassword: Option<Secret>,
    phone: Field,
    description: Field,
    profilePhoto: Field,
    companyInfo: Field)

  /** A row of `password_resets`; `expiresAt` is in milliseconds since the epoch. */
  datatype ResetRow = ResetRow(userId: nat, token: string, expiresAt: int)

  /** A row of `companies`, owned by the user `userId`. */
  datatype Company = Company(
    userId: nat,
    name: Field,
    description: Field,
    location: Field,
    phone: Field,
    photo: Field)

  /** A loosely typed JSON scalar from a request body. */
  datatype Scalar = Missing | Num(n: int) | Text(s: string)

  /** JavaScript truthiness of a scalar: absent, 0 and "" are falsy. */
  predicate ScalarTruthy(v: Scalar) {
    match v
    case Missing => false
    case Num(n) => n != 0
    case Text(s) => s != ""
  }

  /** A row of `programs`; `active` is 1 for a running program. */
  datatype Program = Program(duration: Scalar, mode: Scalar, active: int)

  datatype Db = Db(
    users: map<nat, User>, nextUser: nat,
    resets: map<nat, ResetRow>, nextReset: nat,
    companies: map<nat, Company>, nextCompany: nat,
    programs: map<nat, Program>, nextProgram: nat)

  /** Auto-increment keys start at 1 and every key in a table is below the table's counter. */
  predicate Valid(db: Db) {
    && 1 <= db.nextUser && 1 <= db.nextReset && 1 <= db.nextCompany && 1 <= db.nextProgram
    && (forall k :: k in db.users ==> 1 <= k < db.nextUser)
    && (forall k :: k in db.resets ==> 1 <= k < db.nextReset)
    && (forall k :: k in db.companies ==> 1 <= k < db.nextCompany)
    && (forall k :: k in db.programs ==> 1 <= k < db.nextProgram)
  }

  /** An HTTP reply: the status, the `message` of the JSON body ("" when the body has
      none) and the rest of the body, if any. */
  datatype Reply<T> = Reply(status: int, message: string, data: Option<T>)

  /** The reply of a handler that may write, and the tables afterwards. */
  datatype Step<T> = Step(reply: Reply<T>, db: Db)

  const ServerError := "Error en el servidor."

  /** The `process.env` variables the handlers read; None is an unset variable. */
  datatype Env = Env(jwtSecret: Field, adminCode: Field, backendUrl: Field, nodeEnv: Field)

  /** The row a `SELECT ... WHERE` without ORDER BY returns first: the matching row
      with the least key below `bound`. */
  function FirstKey<R>(m: map<nat, R>, p: R -> bool, bound: nat): (r: Option<nat>)
    ensures r.Some? ==> r.value < bound && r.value in m && p(m[r.value])
    ensures r.Some? ==> forall j :: j < r.value && j in m ==> !p(m[j])
    ensures r.None? ==> forall j :: j < bound && j in m ==> !p(m[j])
  {
    if bound == 0 then None
    else
      var r := FirstKey(m, p, bound - 1);
      if r.Some? then r
      else if bound - 1 in m && p(m[bound - 1]) then Some(bound - 1)
      else None
  }

  /** The keys below `bound` of the rows matching `p`, in ascending order. */
  function KeysWhere<R>(m: map<nat, R>, p: R -> bool, bound: nat): (ks: seq<nat>)
    ensures forall i :: 0 <= i < |ks| ==> ks[i] < bound && ks[i] in m && p(m[ks[i]])
    ensures forall j :: j < bound && j in m && p(m[j]) ==> j in ks
    ensures forall i, j :: 0 <= i < j < |ks| ==> ks[i] < ks[j]
  {
    if bound == 0 then []
    else
      var ks := KeysWhere(m, p, bound - 1);
      if bound - 1 in m && p(m[bound - 1]) then ks + [bound - 1] else ks
  }

  /** The first user whose email column equals `email`; an absent email is bound as
      NULL and `email = NULL` matches no row. */
  function FindByEmail(db: Db, email: Field): (r: Option<nat>)
    ensures email.None? ==> r.None?
    ensures r.Some? ==> r.value in db.users && db.users[r.value].email == email
    ensures r.Some? ==> forall k :: k < r.value && k in db.users ==> db.users[k].email != email
    ensures r.None? ==> forall k :: k < db.nextUser && k in db.users ==> email.None? || db.users[k].email != email
  {
    FirstKey(db.users, (u: User) => email.Some? && u.email == email, db.nextUser)
  }

  /** The first reset row carrying `token`. */
  function FindReset(db: Db, token: string): (r: Option<nat>)
    ensures r.Some? ==> r.value in db.resets && db.resets[r.value].token == token
    ensures r.Some? ==> forall k :: k < r.value && k in db.resets ==> db.resets[k].token != token
    ensures r.None? ==> forall k :: k < db.nextReset && k in db.resets ==> db.resets[k].token != token
  {
    FirstKey(db.resets, (r: ResetRow) => r.token == token, db.nextReset)
  }

  /** The first company row owned by `userId`. */
  function FirstCompanyOf(db: Db, userId: nat): (r: Option<nat>)
    ensures r.Some? ==> r.value in db.companies && db.companies[r.value].userId == userId
    ensures r.Some? ==> forall k :: k < r.value && k in db.companies ==> db.companies[k].userId != userId
    ensures r.None? ==> forall k :: k < db.nextCompany && k in db.companies ==> db.companies[k].userId != userId
  {
    FirstKey(db.companies, (c: Company) => c.userId == userId, db.nextCompany)
  }

  /** Every user id, in ascending order. */
  function UserIds(db: Db): seq<nat> {
    KeysWhere(db.users, (u: User) => true, db.nextUser)
  }

  /** In a valid store FindByEmail finds a row exactly when some user has that email,
      and it is the one with the least key. */
  lemma FindByEmailComplete(db: Db, email: string)
    requires Valid(db)
    ensures FindByEmail(db, Some(email)).Some? <==>
            exists k :: k in db.users && db.users[k].email == Some(email)
    ensures FindByEmail(db, Some(email)).Some? ==>
            forall k :: k in db.users && db.users[k].email == Some(email) ==> FindByEmail(db, Some(email)).value <= k
  {
    var r := FindByEmail(db, Some(email));
    if r.None? {
      forall k | k in db.users
        ensures db.users[k].email != Some(email)
      {
        assert k < db.nextUser;
      }
    }
  }

  /** A row inserted with the next key of an otherwise unchanged table is the one
      FindByEmail finds, when no older row has that email. */
  lemma FindByEmailAfterInsert(db: Db, email: string, row: User)
    requires Valid(db)
    requires FindByEmail(db, Some(email)).None?
    requires row.email == Some(email)
    ensures FindByEmail(db.(users := db.users[db.nextUser := row], nextUser := db.nextUser + 1), Some(email))
            == Some(db.nextUser)
  {
    var db' := db.(users := db.users[db.nextUser := row], nextUser := db.nextUser + 1);
    assert db.nextUser in db'.users;
  }
}
