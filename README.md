# Account and authentication rules of the TIC Americas backend, in Dafny

This project models the account, session and profile logic of an Express/MySQL
backend. It covers:

- registration and login in two implementations: the auth controller, and the live user router;
- the password-reset token lifecycle: forgot-password, then reset-password;
- password re-verification;
- the JWT access-control middleware and the admin gate;
- the user, profile and company CRUD handlers, with their three merge styles:
  - SQL `COALESCE`: an absent value keeps the stored one;
  - JavaScript `||`: any falsy value keeps the stored one;
  - unconditional overwrite;
- the program start and active-listing handlers;
- the global error handler.

The database is the value `Tables.Db`. It holds the `users`, `password_resets`,
`companies` and `programs` tables, each a map from an auto-increment key to a row,
and the next key of each table. `Tables.Valid` is the invariant the database keeps:
keys start at 1 and stay below the counter. A SELECT without ORDER BY returns
first the matching row with the least key.

Every handler is a function:
- from the tables and the request to a reply (status, message, body data);
- for a handler that writes, to a reply and the tables afterwards.

The writing handlers are also methods of the class `Store.Database`. Each method
updates the table fields one statement at a time, in the order the handler issues
its queries, and is proved to produce exactly the reply and tables of its function.

The collaborators are symbolic:
- bcrypt's `hash` is a `Digest` of the password's first 72 characters and a salt. `compare`
  accepts a digest of the same 72-character key, or a stored text laid out as the text of
  such a digest;
- `jwt.sign` is a `SessionToken` carrying claims, secret and expiry. It travels as a text
  `TokenText` that decodes back to the token;
- `jwt.verify` decodes that text and gives the claims only under the signing secret, and only
  before expiry. The middleware verifies with `JWT_SECRET` as it is set;
- `crypto.randomBytes(20)` is a byte-sequence parameter, and its hex encoding is modelled exactly;
- the clock, the token-expiry verdict and the outcome of `sendMail` are parameters.

## Model

| member | source | states |
|---|---|---|
| Js.Trim | Middlewares/authMiddleware.js:15 | `trim` leaves no whitespace at either end and changes nothing that is already trimmed |
| Js.TrimEmptyIffSpace | Controllers/authController.js:32 | trimming gives "" exactly when the text is all whitespace, so a blank admin password trims to "" |
| Js.PaddedTrim | Middlewares/authMiddleware.js:15 | whitespace padding around a trimmed non-empty text is removed by `trim`, leaving the text |
| Js.TrimStart | Middlewares/authMiddleware.js:15 | the result is the suffix after the leading whitespace, and it starts with a non-space |
| Js.TrimEnd | Middlewares/authMiddleware.js:15 | the result is the prefix before the trailing whitespace, and it ends with a non-space |
| Js.TrimStartPadded | Middlewares/authMiddleware.js:15 | leading whitespace before a text starting with a non-space is exactly what is dropped |
| Js.TrimEndPadded | Middlewares/authMiddleware.js:15 | trailing whitespace after a text ending with a non-space is exactly what is dropped |
| Crypto.Key | Controllers/authController.js:42-45 | bcrypt uses at most the first 72 characters of a password; a password of at most 72 characters is used whole |
| Crypto.Compare | Controllers/authController.js:85 | `compare` throws exactly when an argument is missing; a match means the stored value is, or is the text of, a digest of the password's 72-character key |
| Crypto.CompareHash | Controllers/authController.js:85 | `compare(q, hash(p))` succeeds exactly when q and p agree in their first 72 characters, whatever the salt; for passwords of at most 72 characters, exactly when q equals p |
| Crypto.LongPasswordsCollide | Controllers/authController.js:85 | a password of 72 characters or more is matched by every extension of it |
| Crypto.CompareRaw | Controllers/userController.js:35-38 | a password stored without hashing passes `compare(p, ·)` exactly when it is the text of a bcrypt hash of p, and then it behaves as that hash |
| Crypto.Hex | Controllers/authController.js:120 | hex text has two lowercase hexadecimal digits per byte |
| Crypto.DigitValue | Controllers/authController.js:120 | a hex digit's value maps back to that digit |
| Crypto.UnhexHex | Controllers/authController.js:120 | the reset token decodes back to the random bytes it was made of |
| Crypto.HexInjective | Controllers/authController.js:120 | distinct random bytes give distinct reset tokens |
| Crypto.Sign | Controllers/authController.js:53 | signing throws exactly when the secret is falsy; a signed token carries the claims and expiry, and verifies under the same secret to those claims |
| Crypto.Verify | Middlewares/authMiddleware.js:20 | `jwt.verify` gives claims only under a truthy key and before expiry, and only for the text of a token signed with that key over those claims |
| Crypto.VerifySigned | Middlewares/authMiddleware.js:20 | a signed token verifies to its claims exactly under its own signing secret and before expiry; otherwise verification throws |
| Crypto.TokenTextInjective | Controllers/authController.js:53 | distinct tokens travel as distinct texts |
| Tables.FirstKey | Controllers/authController.js:72-76 | `rows[0]`: the least key below the counter whose row matches, or none when no row below the counter matches |
| Tables.FindByEmail | Controllers/authController.js:37-38 | the first user row whose email equals the given one; an absent email (bound as NULL) matches no row |
| Tables.FindReset | Controllers/authController.js:157-161 | the first reset row carrying exactly the token, or none when no row below the counter carries it |
| Tables.FirstCompanyOf | server.js:117 | the first company row owned by the user, or none when the user owns none |
| Tables.KeysWhere | Routes/program.js:24-28 | the matching keys below the counter, all of them, in strictly increasing order |
| Tables.FindByEmailComplete | Controllers/authController.js:37-38 | in a valid store a user is found by email exactly when some row has that email, and it is the least such key |
| Tables.FindByEmailAfterInsert | Routes/user.js:28-38 | after inserting a new email into a store without it, lookup by that email finds the new row |
| AuthMiddleware.PickToken | Middlewares/authMiddleware.js:6 | the header when it is truthy, otherwise the query token; falsy exactly when both are |
| AuthMiddleware.StripBearer | Middlewares/authMiddleware.js:14-16 | a token with the exact prefix "Bearer " becomes its trimmed remainder; any other token is unchanged |
| AuthMiddleware.Admit | Middlewares/authMiddleware.js:20-36 | `next` is called iff the payload has a truthy `user_id`; then email defaults to "" and role to "usuario"; without one 401; a failed verification 403 |
| AuthMiddleware.VerifyToken | Middlewares/authMiddleware.js:4-37 | with no token 401; a truthy header wins over `?token=`; otherwise `jwt.verify` of the stripped token under JWT_SECRET decides; with JWT_SECRET unset or empty, or an expired token, every request is refused; refusals are 401 or 403 |
| AuthMiddleware.VerifyAdmin | Middlewares/authMiddleware.js:39-44 | `next` is called iff `req.user` is set and its role is "admin"; otherwise 403 |
| AuthMiddleware.AdminOnly | Routes/user.js:104 | `verifyToken` then `verifyAdmin`: only an authenticated admin passes, with the identity `verifyToken` set; refusals are 401 or 403 |
| AuthMiddleware.BearerTokenAuthenticates | Middlewares/authMiddleware.js:6-32 | a token signed with JWT_SECRET over claims with a user id, sent as "Bearer " + whitespace + its text before expiry, admits the claims' user, whatever the query token |
| AuthMiddleware.PaddedBearerVerifies | Middlewares/authMiddleware.js:14-20 | a header "Bearer " + whitespace + a token text is verified exactly as the bare text |
| AuthMiddleware.AdminOnlyAdmits | Middlewares/authMiddleware.js:28 | the admin routes admit exactly an authenticated user whose role is "admin"; a payload without a role is refused |
| AuthMiddleware.PrefixIsCaseSensitive | Middlewares/authMiddleware.js:14 | a "bearer " header is passed to verification unchanged |
| AuthService.SecretOf | Controllers/authController.js:9 | JWT_SECRET, or the default when unset; the result is falsy exactly when JWT_SECRET is set to "" |
| AuthService.AdminCodeOf | Controllers/authController.js:9 | ADMIN_CODE, or the default only when unset: an empty ADMIN_CODE stays empty |
| AuthService.GateOk | Controllers/authController.js:32 | a falsy admin password never opens the gate; an already trimmed one opens it only when it equals the trimmed code |
| AuthService.GateAcceptsPaddedCode | Controllers/authController.js:32 | the admin gate trims both sides, so whitespace around the code is accepted |
| AuthService.RegisterRejection | Controllers/authController.js:20-35 | registration is refused iff a field is missing, the passwords differ, the password is under 6 characters, or an admin's gate code does not match; the first failing check, in that order, gives the message |
| AuthService.RegisteredRow | Controllers/authController.js:42-51 | the inserted row keeps name, email and role; its password, and an admin's admin password, pass `compare` with the ones sent; every other column is NULL |
| AuthService.InsertUser | Controllers/authController.js:48-52 | an insert puts the row under the next key and keeps the store valid |
| AuthService.Register | Controllers/authController.js:15-58 | a refusal or a taken email is 400 with no change; otherwise the hashed row is inserted, and the reply is 201 with `{user_id, email, role}` claims signed under the controller's secret, a 24h expiry and `{user_id, name, email}` exactly when that secret is truthy, else 500 |
| AuthService.RegisterDuplicateEmail | Controllers/authController.js:37-40 | a valid registration is refused as a duplicate exactly when the email exists, and the users table is unchanged |
| AuthService.LoginWith | Controllers/authController.js:69-98 | unknown email 400, role mismatch 403 with the stored role, failed admin gate 400, compare throwing 500, wrong password 400, in that order; when all pass, 200 with claims from the stored row and a 30d expiry exactly when the secret is truthy, else 500 |
| AuthService.Login | Controllers/authController.js:9 | the controller's login signs with JWT_SECRET, or its default when unset |
| AuthService.ForgotPassword | Controllers/authController.js:109-145 | missing email 400 and unknown email 404, both with no insert and no mail; otherwise one reset row expiring in 3600000 ms and a mail to the address whose link is the fixed prefix and the token; 200 when delivered, else 500; the mail is never in the reply |
| AuthService.ResetTokenShape | Controllers/authController.js:120-128 | the reset token is 40 hexadecimal characters that decode to the random bytes, and the link ends with it |
| AuthService.ResetPassword | Controllers/authController.js:151-176 | missing fields, unknown token, `expires_at < now` and a short new password are 400 in that order with no change; a found, unexpired token succeeds exactly when the new password has at least 6 characters, and success rehashes only the owner's password and deletes only that reset row |
| AuthService.VerifyPassword | Controllers/authController.js:182-204 | missing password 400, unknown user 404; compare throwing (a NULL stored password) 500; otherwise `{valid: true}` iff compare succeeds, else 401 `{valid: false}` |
| AuthService.ShortPasswordsRefused | Controllers/authController.js:27-29 | a password under 6 characters is refused at registration and at reset, and nothing changes |
| AuthService.WrongGateCodeRefused | Controllers/authController.js:31-35 | an admin registration whose code differs from ADMIN_CODE after trimming is 400 with no insert |
| AuthService.RegisterThenLogin | Controllers/authController.js:42-98 | a successful registration can log in with the same credentials, and the token names the new user |
| AuthService.RegisterThenControllerLogin | Controllers/authController.js:42-98 | the controller's own login accepts a fresh registration |
| AuthService.ResetTokenSingleUse | Controllers/authController.js:168-171 | when the token is unique, a second reset with the same token is refused as invalid |
| AuthService.ForgotThenReset | Controllers/authController.js:121-164 | a fresh reset token is accepted up to and including `now + 3600000` and refused as expired after it |
| AuthService.ResetThenVerify | Controllers/authController.js:168-199 | after a reset, an attempt verifies for the owner exactly when it agrees with the new password in its first 72 characters; for passwords of at most 72 characters, exactly when it is the new one |
| AuthService.RegisterTokenAdmitted | Middlewares/authMiddleware.js:20 | a registration token sent back as a bearer header is admitted, for the new user, exactly when JWT_SECRET is set; with it unset the controller signs with its default and every such token is refused with 403 |
| UserRoutes.RouteAdminCode | Routes/user.js:9 | ADMIN_CODE when truthy, else the default: the router's code is never empty |
| UserRoutes.SignupRejection | Routes/user.js:17-25 | signup is refused iff a field is missing, the password is under 6 characters, or an admin's gate code does not match; the first failing check, in that order, gives the message; there is no confirmation check |
| UserRoutes.SignupRow | Routes/user.js:34-38 | the inserted row keeps name, email and role, its password passes `compare` with the one sent, and it has no admin password |
| UserRoutes.Signup | Routes/user.js:12-52 | a refusal or a taken email is 400 with no change; otherwise one hashed row without an admin password is inserted, and the reply is 201 with a 30d token under JWT_SECRET exactly when it is truthy, else 500 |
| UserRoutes.SignupDuplicateEmail | Routes/user.js:28-31 | a valid signup is refused as a duplicate exactly when the email exists |
| UserRoutes.Login | Routes/user.js:55-101 | the live login signs with JWT_SECRET as it is, never with a default |
| UserRoutes.SignupThenLogin | Routes/user.js:12-101 | a successful signup can log in, and the login token carries the signup's claims |
| UserRoutes.SignupTokenAdmitted | Routes/user.js:41-45 | a signup token sent back as a bearer header is always admitted for the new user, since signing and verification both use JWT_SECRET |
| UserRoutes.RegisterThenLiveLogin | Routes/user.js:55-101 | a controller registration can log in through the live route when ADMIN_CODE is not "" and the secret is set |
| UserRoutes.EmptyAdminCodeSplitsGates | Routes/user.js:9 | with ADMIN_CODE = "" the controller accepts any all-whitespace admin password, while the router falls back to the default code and refuses it |
| UserRoutes.ListUsers | Routes/user.js:104-114 | every user in key order, projected to the public columns |
| UserRoutes.ListUsersComplete | Routes/user.js:104-114 | in a valid store every user is listed exactly once |
| UserRoutes.CoalescedUser | Routes/user.js:131-140 | each field given keeps its value; each field absent keeps the stored value; nothing else changes |
| UserRoutes.CoalescedCompany | Routes/user.js:143-152 | name, location and phone keep the stored value when absent; the photo takes `profile_photo` when given; owner and description are unchanged |
| UserRoutes.UpdateProfile | Routes/user.js:118-160 | always 200; only the token user's row changes (COALESCE); the company named by `company_id` is updated only when both `company_id` and `company_name` are truthy |
| UserRoutes.UpdateProfileIgnoresCompanyOwner | Routes/user.js:143-153 | the company update is keyed by `company_id` alone, so another user's company can be renamed |
| UserRoutes.WithoutUser | Routes/user.js:176-177 | the user row and every company it owns are removed, and nothing else |
| UserRoutes.DeleteUser | Routes/user.js:163-184 | unknown id 404, then 403 for a non-admin deleting another user, both with no change; otherwise the user and their companies are removed |
| UserRoutes.DeleteRoutesDiffer | Routes/user.js:176-177 | this delete removes the user's companies, while the server's admin delete leaves them |
| UserController.GetUsers | Controllers/userController.js:4-12 | every row with every column, in strictly increasing key order |
| UserController.GetUsersComplete | Controllers/userController.js:4-12 | in a valid store every row is returned |
| UserController.GetUserById | Controllers/userController.js:15-29 | the row when the id exists, else 404 |
| UserController.CreatedRow | Controllers/userController.js:35-38 | the inserted row keeps name and email, holds the password text unhashed, and has every other column NULL |
| UserController.CreateUser | Controllers/userController.js:32-44 | exactly one row is inserted under the returned key, with the password stored as supplied |
| UserController.CreatedUserPasswordCompare | Controllers/userController.js:35-38 | the stored text passes `compare` for an attempt exactly when it is the text of a bcrypt hash of the attempt; the supplied password itself, up to 72 characters, never does |
| UserController.CreateThenGet | Controllers/userController.js:32-44 | the returned key finds the inserted row |
| UserController.MergedUser | Controllers/userController.js:59-63 | each of name, email, description and phone is the new value if truthy, else the stored one; companyInfo is replaced only when given |
| UserController.UpdateUser | Controllers/userController.js:47-81 | a missing user is 404 with no change; otherwise only that row is merged; the 400 branch for zero affected rows is never taken |
| UserController.EmptyStringKeepsValue | Controllers/userController.js:59-62 | an empty string cannot clear a field |
| ServerRoutes.UploadUrl | server.js:143-144 | the URL is BACKEND_URL, or the localhost default when it is falsy, then "/uploads/" and the file name |
| ServerRoutes.GetProfile | server.js:75-96 | no user row 404; otherwise 200 with every user column as stored, and the five company columns of the user's first company, or all NULL when there is none |
| ServerRoutes.OverwriteUser | server.js:113-116 | only the user's row changes, and in it exactly the five profile columns, set to the request's values |
| ServerRoutes.SetCompaniesOf | server.js:119-122 | every company row of the user becomes the request's company; other rows and the keys are unchanged |
| ServerRoutes.PutProfile | server.js:98-135 | the five user columns are overwritten; all of the user's companies are updated, or one is inserted; others' companies, the other tables and their counters are unchanged |
| ServerRoutes.PutThenGetProfile | server.js:113-129 | after the write, the profile read shows every written user and company value |
| ServerRoutes.Upload | server.js:139-153 | no file 400 with no change; otherwise the user's photo becomes the URL, which is returned |
| ServerRoutes.UploadThenGetProfile | server.js:147 | after an upload the profile's photo is the returned URL |
| ServerRoutes.AdminListUsers | server.js:156-164 | every user in key order as `{user_id, name, email, role}` |
| ServerRoutes.AdminListUsersComplete | server.js:156-164 | in a valid store every user is listed |
| ServerRoutes.AdminDeleteUser | server.js:166-182 | self-deletion 403 before any read; unknown id 404; otherwise exactly that user row is removed |
| ServerRoutes.AdminDeleteKeepsCompanies | server.js:176 | the admin delete leaves the user's companies, and the removed user's profile read is 404 |
| ProfileRoutes.UploadFileUrl | Routes/profile.js:13-19 | no file 400; otherwise `{fileUrl}`, built like the server's upload URL |
| ProfileRoutes.UploadUrlsAgree | Routes/profile.js:13-19 | this upload and the server's give the same status and URL |
| ProfileRoutes.GetProfile | Routes/profile.js:24-74 | no user row 404; the five user columns become "" when falsy; companyInfo is the first company, or five empty strings |
| ProfileRoutes.ProfileReadsAgree | Routes/profile.js:52-65 | this profile read and the server's agree on every set value |
| Programs.Start | Routes/program.js:6-16 | a falsy duration or mode (0 included) is 400 with no insert; otherwise one row with active = 1 is inserted and 201 carries its key |
| Programs.ActivePrograms | Controllers/programController.js:23-29 | only rows with active = 1, in key order |
| Programs.ActiveProgramsComplete | Routes/program.js:24-28 | in a valid store every row with active = 1 is listed |
| Programs.StartedIsActive | Controllers/programController.js:4-17 | a started program is listed as active with what was sent |
| ErrorHandler.StatusOf | Middlewares/errorHandler.js:5 | the status is `err.statusCode` when truthy, else 500 |
| ErrorHandler.Handle | Middlewares/errorHandler.js:2-15 | outside development, the generic message and no stack; in development, the error's message and its stack |
| ErrorHandler.ProductionHidesDetails | Middlewares/errorHandler.js:7-12 | outside development, errors with the same status get identical replies |
| Store.Database.InsertUser | Controllers/authController.js:48-52 | the row goes under the next key, which is returned as `insertId` |
| Store.Database.Register | Controllers/authController.js:15-58 | the statement-by-statement registration gives the reply and tables of `AuthService.Register`, and keeps the store valid |
| Store.Database.ForgotPassword | Controllers/authController.js:109-145 | the reply, the mail handed to `sendMail` and the tables of `AuthService.ForgotPassword`; the reset row is inserted before the mail is attempted |
| Store.Database.ResetPassword | Controllers/authController.js:151-176 | the UPDATE and then the DELETE give the reply and tables of `AuthService.ResetPassword` |
| Store.Database.Signup | Routes/user.js:12-52 | the reply and tables of `UserRoutes.Signup` |
| Store.Database.UpdateProfile | Routes/user.js:118-160 | the reply and tables of `UserRoutes.UpdateProfile` |
| Store.Database.DeleteUser | Routes/user.js:163-184 | the companies DELETE and then the users DELETE give the reply and tables of `UserRoutes.DeleteUser` |
| Store.Database.CreateUser | Controllers/userController.js:32-44 | the reply and tables of `UserController.CreateUser` |
| Store.Database.UpdateUser | Controllers/userController.js:47-81 | the read, merge and write give the reply and tables of `UserController.UpdateUser` |
| Store.Database.PutProfile | server.js:98-135 | the reply and tables of `ServerRoutes.PutProfile` |
| Store.Database.Upload | server.js:139-153 | the reply and tables of `ServerRoutes.Upload` |
| Store.Database.AdminDeleteUser | server.js:166-182 | the reply and tables of `ServerRoutes.AdminDeleteUser` |
| Store.Database.StartProgram | Routes/program.js:6-16 | the reply and tables of `Programs.Start` |

## Left out

- Cryptography: bcrypt's hash function, JWT signatures and the quality of the random bytes are symbolic. A digest's text and a token's text are decodable layouts, so a text reveals its salt, key, claims and secret. Guessing or forging a hash or a signature is therefore not modelled. A token's expiry ("24h", "30d") is kept as an opaque text, and whether the clock is past it is a boolean parameter of the middleware.
- Crypto.Key: counts 72 characters, where bcrypt counts 72 bytes of the password's UTF-8 encoding. The two agree for ASCII passwords. A password with non-ASCII characters is cut shorter by bcrypt than by the model.
- `sendMail` (utils/emailSender is not part of this model): its outcome is a boolean parameter. A failed delivery gives 500 after the reset row is inserted.
- The clock is a parameter `now`, in milliseconds. The DATETIME precision of `expires_at` is not modelled.
- Tables.FindByEmail and Tables.FindReset use exact equality. MySQL compares text case- and accent-insensitively under its default collation, so an email differing only in case or accents ("José@x" against "jose@x"), or an upper-case copy of a hex reset token, is found by the source and not by the model.
- JSON `null` and an absent body field are both `None`. Non-string JSON values in string fields (numbers, arrays, objects) are not modelled, nor is a `?token=` given twice, which Express turns into an array.
- UserRoutes.DeleteUser: takes the path id `:id` as a number. In the source it is text: MySQL compares it as a number, but the ownership check `String(req.user.user_id) !== String(id)` compares texts. A non-admin who deletes their own account as "05" instead of "5" is refused with 403 by the source; the model answers 200.
- The other handlers also take path ids by their numeric value, and non-numeric ids are not modelled.
- String length is counted in characters, not UTF-16 code units.
- Failures of the database itself (connection errors, constraint violations such as a foreign key from companies to users) and the 500 replies they cause are not modelled. Each writing handler's statements are modelled as all taking effect.
- Config/db.js (pool setup, connection test, `process.exit`), Middlewares/uploadMiddleware.js and the multer configuration of server.js are not modelled. An upload is reduced to an optional stored file name.
- Routes/productos.js, Routes/auth.js and the Express setup, static files, CORS, Helmet, logging and `process.on` handlers of server.js are not modelled. Routes/auth.js routes `registerUser`, `forgotPassword`, `resetPassword` and `verifyPassword` but not `loginUser`, so the live login is `UserRoutes.Login`.
- The `updateProfile` controller mounted by Routes/profile.js lives in a file that is not part of this model.
- The `programs || []` fallback of `getActivePrograms` is not modelled separately, because the driver always returns an array. The router and the controller share `Programs.Start` and differ only in the success message passed to it. The controller names the key field `program_id`, the router `id`.
- Concurrency between requests is not modelled: every handler runs alone against the tables.
- `resetPassword` checks the new password's length only after the token lookup and the expiry check, so an expired or unknown token is reported before a short password. The model keeps that order.
