/**
 * Symbolic models of the cryptographic collaborators: bcrypt's salted hash and
 * compare, `crypto.randomBytes(n).toString("hex")`, and JWT signing.
 * The cryptography itself is not modelled; each primitive keeps only the
 * behaviour the handlers depend on.
 */
module Crypto {
  import opened Js

  newtype byte = x: int | 0 <= x < 256

  /** bcrypt reads at most the first 72 bytes of a password and ignores the rest. */
  const KeyLength := 72

  /** The part of a password bcrypt uses: its first 72 characters. */
  function Key(p: string): (k: string)
    ensures |k| <= KeyLength && |k| <= |p| && k == p[..|k|]
    ensures |p| <= KeyLength <==> k == p
  {
    if |p| <= KeyLength then p else p[..KeyLength]
  }

  /** A value of a password column: a bcrypt digest (of the key of a password, with a
      random salt), or text stored exactly as a request supplied it. */
  datatype Secret = Digest(key: string, salt: nat) | Raw(text: string)

  /** `bcrypt.hash(p, 10)`; the salt is the hash's own randomness. */
  function Hash(p: string, salt: nat): Secret {
    Digest(Key(p), salt)
  }

  // ---------------------------------------------------------------------------
  // Text layouts. A digest and a session token travel as text; these layouts
  // stand for bcrypt's "$2b$10$..." strings and the compact form of a JWT. Only
  // what the handlers rely on is kept: a layout is read back by its decoder.

  function DecimalDigit(n: nat): char
    requires n < 10
  {
    ('0' as int + n) as char
  }

  predicate IsDecimal(s: string) {
    s != [] && forall k :: 0 <= k < |s| ==> '0' <= s[k] <= '9'
  }

  /** The decimal numeral of `n`, without leading zeros. */
  function DecimalText(n: nat): (s: string)
    ensures IsDecimal(s)
  {
    if n < 10 then [DecimalDigit(n)] else DecimalText(n / 10) + [DecimalDigit(n % 10)]
  }

  /** The value of a numeral. */
  function DecimalValue(s: string): nat
    requires forall k :: 0 <= k < |s| ==> '0' <= s[k] <= '9'
  {
    if s == [] then 0 else DecimalValue(s[..|s| - 1]) * 10 + (s[|s| - 1] as int - '0' as int)
  }

  /** A numeral reads back as the number it was written from. */
  lemma {:induction false} DecimalValueText(n: nat)
    ensures DecimalValue(DecimalText(n)) == n
  {
    var s := DecimalText(n);
    if n >= 10 {
      DecimalValueText(n / 10);
      assert s[..|s| - 1] == DecimalText(n / 10);
    }
  }

  /** The position of the first `c` in `s`, or `|s|` when there is none. */
  function IndexOf(s: string, c: char): (i: nat)
    ensures i <= |s|
    ensures i < |s| ==> s[i] == c
    ensures forall j :: 0 <= j < i ==> s[j] != c
  {
    if s == [] || s[0] == c then 0 else 1 + IndexOf(s[1..], c)
  }

  /** A length-prefixed text: the decimal length, ':' and the text itself. */
  function Frame(s: string): string {
    DecimalText(|s|) + ":" + s
  }

  /** Reads one framed text off the front of `t`, giving it and what follows. */
  function Unframe(t: string): Option<(string, string)> {
    var i := IndexOf(t, ':');
    if i == |t| || !IsDecimal(t[..i]) then None
    else
      var n := DecimalValue(t[..i]);
      if |t| < i + 1 + n then None else Some((t[i + 1..i + 1 + n], t[i + 1 + n..]))
  }

  /** A framed text is read back whatever follows it. */
  lemma UnframeFrame(s: string, rest: string)
    ensures Unframe(Frame(s) + rest) == Some((s, rest))
  {
    var d := DecimalText(|s|);
    var t := Frame(s) + rest;
    assert t == d + ([':'] + (s + rest));
    assert t[|d|] == ':';
    assert forall j :: 0 <= j < |d| ==> t[j] == d[j];
    var i := IndexOf(t, ':');
    assert i == |d|;
    assert t[..i] == d;
    DecimalValueText(|s|);
    assert t[i + 1..i + 1 + |s|] == s;
    assert t[i + 1 + |s|..] == rest;
  }

  const BcryptTag := "$2b$10$"

  /** The text of a digest as a password column holds it: the algorithm tag, the salt
      and then what the salt was applied to. */
  function DigestText(key: string, salt: nat): string {
    BcryptTag + (Frame(DecimalText(salt)) + key)
  }

  /** The text `bcrypt.hash(p, 10)` produces with a given salt. */
  function HashText(p: string, salt: nat): string {
    DigestText(Key(p), salt)
  }

  /** Reads a digest text back; None when `t` is not laid out as one. */
  function ParseDigest(t: string): Option<Secret> {
    if !StartsWith(t, BcryptTag) then None
    else match Unframe(t[|BcryptTag|..])
      case None => None
      case Some((salt, key)) => if IsDecimal(salt) then Some(Digest(key, DecimalValue(salt))) else None
  }

  /** A digest text reads back as its digest. */
  lemma ParseDigestText(key: string, salt: nat)
    ensures ParseDigest(DigestText(key, salt)) == Some(Digest(key, salt))
  {
    var t := DigestText(key, salt);
    assert t[..|BcryptTag|] == BcryptTag;
    assert t[|BcryptTag|..] == Frame(DecimalText(salt)) + key;
    UnframeFrame(DecimalText(salt), key);
    DecimalValueText(salt);
  }

  /** The digest a stored value stands for: a digest itself, or a text laid out exactly
      as the text of one. */
  function AsDigest(stored: Secret): (d: Option<Secret>)
    ensures d.Some? ==> d.value.Digest?
    ensures stored.Digest? ==> d == Some(stored)
    ensures stored.Raw? && d.Some? ==> stored.text == DigestText(d.value.key, d.value.salt)
  {
    match stored
    case Digest(_, _) => Some(stored)
    case Raw(t) =>
      match ParseDigest(t)
      case Some(d) => if d.Digest? && DigestText(d.key, d.salt) == t then Some(d) else None
      case None => None
  }

  /** `bcrypt.compare(p, stored)`: None when the call throws because an argument is
      missing; otherwise whether `stored` is, or is the text of, a digest of the key
      of `p`. Any other stored value never matches. */
  function Compare(p: Field, stored: Option<Secret>): (r: Option<bool>)
    ensures r.None? <==> p.None? || stored.None?
    ensures r == Some(true) ==> AsDigest(stored.value).Some? && AsDigest(stored.value).value.key == Key(p.value)
  {
    if p.None? || stored.None? then None
    else match AsDigest(stored.value)
      case Some(d) => Some(d.key == Key(p.value))
      case None => Some(false)
  }

  /** compare succeeds on the hash of a password exactly when the two passwords agree in
      their first 72 characters, whatever the salt; for passwords of at most 72
      characters that is exactly when they are equal. */
  lemma CompareHash(p: string, q: string, salt: nat)
    ensures Compare(Some(q), Some(Hash(p, salt))) == Some(Key(q) == Key(p))
    ensures |p| <= KeyLength && |q| <= KeyLength ==> (Compare(Some(q), Some(Hash(p, salt))) == Some(true) <==> q == p)
  {
  }

  /** A password of 72 characters or more is matched by anything that extends it. */
  lemma LongPasswordsCollide(p: string, extra: string, salt: nat)
    requires |p| >= KeyLength
    ensures Compare(Some(p + extra), Some(Hash(p, salt))) == Some(true)
  {
    assert (p + extra)[..KeyLength] == p[..KeyLength];
  }

  /** A value stored without hashing passes compare exactly when it is the text of a
      bcrypt hash of the password, and then it behaves as that hash does. */
  lemma CompareRaw(p: string, text: string)
    ensures Compare(Some(p), Some(Raw(text))) == Some(true) <==> exists salt :: text == HashText(p, salt)
    ensures forall salt :: text == HashText(p, salt) ==>
              Compare(Some(p), Some(Raw(text))) == Compare(Some(p), Some(Hash(p, salt)))
  {
    if Compare(Some(p), Some(Raw(text))) == Some(true) {
      var d := AsDigest(Raw(text)).value;
      assert text == HashText(p, d.salt);
    }
    forall salt | text == HashText(p, salt)
      ensures Compare(Some(p), Some(Raw(text))) == Some(true)
    {
      ParseDigestText(Key(p), salt);
    }
  }

  const HexDigits := "0123456789abcdef"

  function HexDigit(n: int): char
    requires 0 <= n < 16
  {
    HexDigits[n]
  }

  predicate IsHexDigit(c: char) {
    ('0' <= c <= '9') || ('a' <= c <= 'f')
  }

  /** The value of a lowercase hexadecimal digit. */
  function DigitValue(c: char): (n: int)
    requires IsHexDigit(c)
    ensures 0 <= n < 16 && HexDigit(n) == c
  {
    if '0' <= c <= '9' then c as int - '0' as int else c as int - 'a' as int + 10
  }

  /** `buffer.toString("hex")`: two lowercase hexadecimal digits per byte, high nibble first. */
  function Hex(bytes: seq<byte>): (s: string)
    ensures |s| == 2 * |bytes|
    ensures forall k :: 0 <= k < |s| ==> IsHexDigit(s[k])
  {
    if bytes == [] then ""
    else
      var b := bytes[0] as int;
      [HexDigit(b / 16), HexDigit(b % 16)] + Hex(bytes[1..])
  }

  /** Decodes lowercase hexadecimal text; None when it is of odd length or holds another character. */
  function Unhex(s: string): Option<seq<byte>>
  {
    if s == [] then Some([])
    else if |s| == 1 || !IsHexDigit(s[0]) || !IsHexDigit(s[1]) then None
    else match Unhex(s[2..])
      case None => None
      case Some(rest) => Some([(DigitValue(s[0]) * 16 + DigitValue(s[1])) as byte] + rest)
  }

  /** Reading a digit back gives its value. */
  lemma DigitValueOfDigit(n: int)
    requires 0 <= n < 16
    ensures DigitValue(HexDigit(n)) == n
  {
  }

  /** Hex encoding loses nothing: the token can be decoded back to the random bytes. */
  lemma {:induction false} UnhexHex(bytes: seq<byte>)
    ensures Unhex(Hex(bytes)) == Some(bytes)
  {
    if bytes != [] {
      var b := bytes[0] as int;
      var hi, lo := b / 16, b % 16;
      var rest := Hex(bytes[1..]);
      var s := Hex(bytes);
      assert s == [HexDigit(hi), HexDigit(lo)] + rest;
      assert s[0] == HexDigit(hi) && s[1] == HexDigit(lo) && s[2..] == rest;
      UnhexHex(bytes[1..]);
      DigitValueOfDigit(hi);
      DigitValueOfDigit(lo);
      assert (hi * 16 + lo) as byte == bytes[0];
      assert bytes == [bytes[0]] + bytes[1..];
    }
  }

  /** Distinct random bytes give distinct tokens. */
  lemma HexInjective(a: seq<byte>, b: seq<byte>)
    requires Hex(a) == Hex(b)
    ensures a == b
  {
    UnhexHex(a);
    UnhexHex(b);
  }

  /** The identity a session token carries: `{ user_id, email, role }`. */
  datatype Claims = Claims(userId: nat, email: Field, role: Field)

  /** A signed session token: the claims, the secret that signed them and the
      `expiresIn` option, kept as an opaque duration text. */
  datatype SessionToken = SessionToken(claims: Claims, secret: string, expiresIn: string)

  const JwtTag := "jwt:"
  const JwtEnd := "."

  /** An optional claim: "-" when absent, otherwise "+" and the framed text. */
  function FrameField(f: Field): string {
    if f.None? then "-" else "+" + Frame(f.value)
  }

  function UnframeField(t: string): Option<(Field, string)> {
    if t == [] then None
    else if t[0] == '-' then Some((None, t[1..]))
    else if t[0] != '+' then None
    else match Unframe(t[1..])
      case None => None
      case Some((v, rest)) => Some((Some(v), rest))
  }

  lemma UnframeFrameField(f: Field, rest: string)
    ensures UnframeField(FrameField(f) + rest) == Some((f, rest))
  {
    var t := FrameField(f) + rest;
    if f.Some? {
      var framed := Frame(f.value);
      assert t == "+" + (framed + rest);
      assert t[0] == '+' && t[1..] == framed + rest;
      UnframeFrame(f.value, rest);
      assert Unframe(t[1..]) == Some((f.value, rest));
    } else {
      assert t == "-" + rest;
      assert t[0] == '-' && t[1..] == rest;
    }
  }

  /** The text of a token as it travels in a header or a query string. The layout
      stands for the three parts of a JWT: the payload's claims, then the signing
      secret in place of the signature, then the expiry option. */
  function TokenText(t: SessionToken): (text: string)
    ensures text != [] && text[0] == JwtTag[0] && text[|text| - 1] == JwtEnd[0]
  {
    JwtTag + (Frame(DecimalText(t.claims.userId)) + (FrameField(t.claims.email) + (FrameField(t.claims.role)
      + (Frame(t.secret) + (Frame(t.expiresIn) + JwtEnd)))))
  }

  /** Reads a token text back; None when `text` is not laid out as one. */
  function ParseToken(text: string): Option<SessionToken> {
    if !StartsWith(text, JwtTag) then None
    else match Unframe(text[|JwtTag|..])
      case None => None
      case Some((id, t1)) =>
        if !IsDecimal(id) then None
        else match UnframeField(t1)
          case None => None
          case Some((email, t2)) =>
            match UnframeField(t2)
            case None => None
            case Some((role, t3)) =>
              match Unframe(t3)
              case None => None
              case Some((secret, t4)) =>
                match Unframe(t4)
                case None => None
                case Some((expiresIn, _)) =>
                  Some(SessionToken(Claims(DecimalValue(id), email, role), secret, expiresIn))
  }

  /** A token text reads back as its token, so distinct tokens have distinct texts. */
  lemma ParseTokenText(t: SessionToken)
    ensures ParseToken(TokenText(t)) == Some(t)
  {
    var t5 := Frame(t.expiresIn) + JwtEnd;
    var t4 := Frame(t.secret) + t5;
    var t3 := FrameField(t.claims.role) + t4;
    var t2 := FrameField(t.claims.email) + t3;
    var t1 := Frame(DecimalText(t.claims.userId)) + t2;
    var text := TokenText(t);
    assert text == JwtTag + t1;
    assert text[..|JwtTag|] == JwtTag;
    assert text[|JwtTag|..] == t1;
    UnframeFrame(DecimalText(t.claims.userId), t2);
    DecimalValueText(t.claims.userId);
    UnframeFrameField(t.claims.email, t3);
    UnframeFrameField(t.claims.role, t4);
    UnframeFrame(t.secret, t5);
    UnframeFrame(t.expiresIn, JwtEnd);
  }

  /** `jwt.verify(text, key)`: the claims of a token laid out exactly as a token text and
      signed with `key`; None when it throws because the key is missing or empty, the
      text is not a token, the signature is not by `key`, or the token has expired.
      `expired` stands for the clock's verdict on the token's `exp`. */
  function Verify(text: string, key: Field, expired: bool): (c: Option<Claims>)
    ensures c.Some? ==> Truthy(key) && !expired
    ensures c.Some? ==> exists t :: text == TokenText(t) && t.secret == key.value && t.claims == c.value
  {
    if !Truthy(key) || expired then None
    else match ParseToken(text)
      case None => None
      case Some(t) => if TokenText(t) == text && t.secret == key.value then Some(t.claims) else None
  }

  /** `jwt.sign(claims, secret, { expiresIn })`: None when it throws because the secret
      is falsy. A signed token verifies, under the same secret and before it expires,
      to the claims it was signed over. */
  function Sign(claims: Claims, secret: Field, expiresIn: string): (t: Option<SessionToken>)
    ensures t.Some? <==> Truthy(secret)
    ensures t.Some? ==> t.value.claims == claims && t.value.expiresIn == expiresIn
    ensures t.Some? ==> Verify(TokenText(t.value), secret, false) == Some(claims)
  {
    if Truthy(secret) then
      var t := SessionToken(claims, secret.value, expiresIn);
      ParseTokenText(t);
      Some(t)
    else None
  }

  /** A signed token verifies under exactly one key, the secret that signed it, and
      only before it expires; under any other key, or once expired, `jwt.verify` throws. */
  lemma VerifySigned(t: SessionToken, key: Field, expired: bool)
    ensures Verify(TokenText(t), key, expired) ==
            if Truthy(key) && key.value == t.secret && !expired then Some(t.claims) else None
  {
    ParseTokenText(t);
  }

  /** Distinct tokens travel as distinct texts. */
  lemma TokenTextInjective(a: SessionToken, b: SessionToken)
    requires TokenText(a) == TokenText(b)
    ensures a == b
  {
    ParseTokenText(a);
    ParseTokenText(b);
  }
}
