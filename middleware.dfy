/**
 * The access-control middleware: `verifyToken` finds the bearer token, has it
 * verified and attaches the identity to the request; `verifyAdmin` lets only
 * the admin role through. Tokens are verified with `process.env.JWT_SECRET`
 * as it is, with no default.
 */
module AuthMiddleware {
  import opened Js
  import opened Crypto

  /** What `jwt.verify(token, secret)` gives: it throws (bad signature, malformed
      or expired token, missing secret), or it returns the payload. */
  datatype Decoded = Rejected | Payload(userId: Option<nat>, email: Field, role: Field)

  /** The parts of a request the middleware reads: the Authorization header and `?token=`. */
  datatype Request = Request(authorization: Field, queryToken: Field)

  /** `req.user` as the middleware sets it. */
  datatype ReqUser = ReqUser(userId: nat, email: string, role: string)

  /** Either `next()` is called with `req.user` set, or the request is answered. */
  datatype Gate = Next(user: ReqUser) | Deny(status: int, message: string)

  const BearerPrefix := "Bearer "
  const DefaultRole := "usuario"
  const MsgTokenRequired := "Acceso denegado, token requerido."
  const MsgNoUserId := "Token inválido: Falta 'user_id' en el payload."
  const MsgBadToken := "Token inválido o expirado."
  const MsgAdminOnly := "Acceso denegado: Solo administradores pueden acceder a este recurso."

  /** The payload `jwt.verify` returns for a token signed over `claims`. */
  function PayloadOf(c: Claims): Decoded {
    Payload(Some(c.userId), c.email, c.role)
  }

  /** What the middleware sees of `jwt.verify`: the payload, or a throw. */
  function DecodedOf(c: Option<Claims>): (d: Decoded)
    ensures c.None? <==> d.Rejected?
    ensures c.Some? ==> d == PayloadOf(c.value)
  {
    if c.Some? then PayloadOf(c.value) else Rejected
  }

  /** `req.header("Authorization") || req.query.token`: the header when it is truthy,
      otherwise the query token. */
  function PickToken(req: Request): (t: Field)
    ensures Truthy(t) <==> Truthy(req.authorization) || Truthy(req.queryToken)
    ensures Truthy(req.authorization) ==> t == req.authorization
    ensures !Truthy(req.authorization) ==> t == req.queryToken
  {
    Or(req.authorization, req.queryToken)
  }

  /** Drops a case-sensitive "Bearer " prefix and trims what follows it; any other
      token is left as it is. */
  function StripBearer(token: string): (r: string)
    ensures StartsWith(token, BearerPrefix) ==> r == Trim(token[|BearerPrefix|..])
    ensures !StartsWith(token, BearerPrefix) ==> r == token
  {
    if StartsWith(token, BearerPrefix) then Trim(token[7..]) else token
  }

  /** What follows a successful `jwt.verify`: the payload must carry a truthy `user_id`;
      email and role get their defaults. A throw becomes 403. */
  function Admit(d: Decoded): (g: Gate)
    ensures g.Next? <==> d.Payload? && d.userId.Some? && d.userId.value != 0
    ensures g.Next? ==> g.user == ReqUser(d.userId.value, OrEmpty(d.email), Or(d.role, Some(DefaultRole)).value)
    ensures d.Rejected? ==> g == Deny(403, MsgBadToken)
    ensures d.Payload? && !g.Next? ==> g == Deny(401, MsgNoUserId)
  {
    match d
    case Rejected => Deny(403, MsgBadToken)
    case Payload(userId, email, role) =>
      if userId.None? || userId.value == 0 then Deny(401, MsgNoUserId)
      else Next(ReqUser(userId.value, OrEmpty(email), Or(role, Some(DefaultRole)).value))
  }

  /** `verifyToken` under the configured `secret`: with no token, 401 and `next` is not
      called; otherwise the header token, when truthy, wins over the query token, and
      `jwt.verify` decides. `expired` is whether the clock is past the token's expiry. */
  function VerifyToken(req: Request, secret: Field, expired: bool): (g: Gate)
    ensures !Truthy(req.authorization) && !Truthy(req.queryToken) ==> g == Deny(401, MsgTokenRequired)
    ensures Truthy(req.authorization) ==>
            g == Admit(DecodedOf(Verify(StripBearer(req.authorization.value), secret, expired)))
    ensures !Truthy(req.authorization) && Truthy(req.queryToken) ==>
            g == Admit(DecodedOf(Verify(StripBearer(req.queryToken.value), secret, expired)))
    ensures g.Deny? ==> g.status == 401 || g.status == 403
    ensures !Truthy(secret) || expired ==> g.Deny?
  {
    var token := PickToken(req);
    if !Truthy(token) then Deny(401, MsgTokenRequired)
    else Admit(DecodedOf(Verify(StripBearer(token.value), secret, expired)))
  }

  /** `verifyAdmin`: `next` is called exactly when `req.user` is set and its role is "admin". */
  function VerifyAdmin(user: Option<ReqUser>): (g: Gate)
    ensures g.Next? <==> user.Some? && user.value.role == "admin"
    ensures g.Next? ==> g.user == user.value
    ensures g.Deny? ==> g == Deny(403, MsgAdminOnly)
  {
    if user.Some? && user.value.role == "admin" then Next(user.value) else Deny(403, MsgAdminOnly)
  }

  /** `verifyToken` followed by `verifyAdmin`, as the admin-only routes mount them. */
  function AdminOnly(req: Request, secret: Field, expired: bool): (g: Gate)
    ensures g.Next? ==> g.user.role == "admin" && g == VerifyToken(req, secret, expired)
    ensures g.Deny? ==> g.status == 401 || g.status == 403
  {
    match VerifyToken(req, secret, expired)
    case Deny(s, m) => Deny(s, m)
    case Next(u) => VerifyAdmin(Some(u))
  }

  /** "Bearer ", any whitespace and then a text without surrounding whitespace is
      stripped back to that text. */
  lemma StripPaddedBearer(pad: string, text: string)
    requires AllSpace(pad) && text != [] && Trimmed(text)
    ensures StripBearer(BearerPrefix + pad + text) == text
  {
    var header := BearerPrefix + pad + text;
    assert StartsWith(header, BearerPrefix) by {
      assert header[..|BearerPrefix|] == BearerPrefix;
    }
    assert header[|BearerPrefix|..] == pad + text + "";
    PaddedTrim(pad, text, "");
  }

  /** A token sent as "Bearer " and any whitespace before its text is verified as the
      bare text would be, whatever the query token. */
  lemma PaddedBearerVerifies(t: SessionToken, pad: string, query: Field, secret: Field, expired: bool)
    requires AllSpace(pad)
    ensures VerifyToken(Request(Some(BearerPrefix + pad + TokenText(t)), query), secret, expired)
            == Admit(DecodedOf(Verify(TokenText(t), secret, expired)))
  {
    var text := TokenText(t);
    assert Trimmed(text) by {
      assert text[0] == 'j' && text[|text| - 1] == '.';
    }
    StripPaddedBearer(pad, text);
    assert Truthy(Some(BearerPrefix + pad + text));
  }

  /** A token signed with the configured secret over claims with a user id, sent as a
      bearer header before it expires, lets the claims' user through. */
  lemma BearerTokenAuthenticates(t: SessionToken, pad: string, query: Field, secret: Field)
    requires AllSpace(pad)
    requires Truthy(secret) && secret.value == t.secret
    requires t.claims.userId != 0
    ensures VerifyToken(Request(Some(BearerPrefix + pad + TokenText(t)), query), secret, false)
            == Next(ReqUser(t.claims.userId, OrEmpty(t.claims.email), Or(t.claims.role, Some(DefaultRole)).value))
  {
    PaddedBearerVerifies(t, pad, query, secret, false);
    VerifySigned(t, secret, false);
  }

  /** Only a token whose payload role is literally "admin" passes the admin-only
      routes: a payload without a role gets "usuario" and is refused with 403. */
  lemma AdminOnlyAdmits(req: Request, secret: Field, expired: bool)
    ensures AdminOnly(req, secret, expired).Next? <==>
            VerifyToken(req, secret, expired).Next? && VerifyToken(req, secret, expired).user.role == "admin"
    ensures VerifyToken(req, secret, expired).Next? && VerifyToken(req, secret, expired).user.role != "admin" ==>
            AdminOnly(req, secret, expired) == Deny(403, MsgAdminOnly)
  {
  }

  /** A "bearer " or "Bearer" header without the exact prefix is handed to `jwt.verify` unchanged. */
  lemma PrefixIsCaseSensitive(rest: string)
    ensures StripBearer("bearer " + rest) == "bearer " + rest
  {
    var t := "bearer " + rest;
    assert t[0] == 'b';
  }
}
