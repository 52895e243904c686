/**
 * Password hashing and bearer tokens. The pbkdf2_sha256 hasher and the
 * HS256 signature are foreign cryptography: both are parameters of the
 * model, and the only facts assumed of them are stated as predicates that
 * callers must supply.
 */
module Security {
  import opened Http

  /** The random salt the hasher draws for each new hash. */
  type Salt = nat

  /**
   * The password context: `hash` is get_password_hash (with its salt made
   * explicit) and `verify` is verify_password.
   */
  datatype Hasher = Hasher(hash: (string, Salt) -> string, verify: (string, string) -> bool)

  /** The one property of the hasher the model relies on: a hash verifies its own password. */
  ghost predicate Sound(h: Hasher)
  {
    forall password: string, salt: Salt :: h.verify(password, h.hash(password, salt))
  }

  lemma HashThenVerify(h: Hasher, password: string, salt: Salt)
    requires Sound(h)
    ensures h.verify(password, h.hash(password, salt))
  {
  }

  /** The MAC that signs a token's claims and expiry under a secret (HMAC-SHA256 in the source). */
  type Signer = (string, map<string, string>, int) -> string

  /**
   * A decoded JWT: its string-valued claims (RFC 7519 section 4.1.2 `sub`
   * among them), its numeric `exp` claim (section 4.1.4), and its signature.
   */
  datatype Token = Token(claims: map<string, string>, exp: int, sig: string)

  /** The signature of `t` is the one the secret gives its payload. */
  predicate Signed(secret: string, sign: Signer, t: Token)
  {
    t.sig == sign(secret, t.claims, t.exp)
  }

  const AccessTokenExpireMinutes: int := 30

  /** The default token lifetime, in seconds. */
  const DefaultLifetime: int := AccessTokenExpireMinutes * 60

  /**
   * create_access_token: a copy of `data` with `exp` set, signed under the
   * secret. Times are whole seconds; `expiresDelta` is the optional
   * lifetime, and a zero lifetime counts as absent, since Python treats a
   * zero timedelta as false.
   */
  method CreateAccessToken(secret: string, sign: Signer, data: map<string, string>,
                           expiresDelta: Option<int>, now: int)
    returns (token: Token)
    ensures token.claims.Keys == data.Keys - {"exp"}
    ensures forall k :: k in token.claims ==> token.claims[k] == data[k]
    ensures expiresDelta.Some? && expiresDelta.value != 0 ==> token.exp == now + expiresDelta.value
    ensures expiresDelta.None? || expiresDelta.value == 0 ==> token.exp == now + DefaultLifetime
    ensures Signed(secret, sign, token)
  {
    var toEncode := data;
    var expire: int;
    if expiresDelta.Some? && expiresDelta.value != 0 {
      expire := now + expiresDelta.value;
    } else {
      expire := now + DefaultLifetime;
    }
    // setting the exp claim: a caller's own exp claim is replaced by the expiry field
    toEncode := toEncode - {"exp"};
    token := Token(toEncode, expire, sign(secret, toEncode, expire));
  }

  /** Why jwt.decode raised a JWTError. */
  datatype JwtError = InvalidSignature | ExpiredSignature

  datatype Decoded = Payload(claims: map<string, string>) | Rejected(reason: JwtError)

  /**
   * jwt.decode at time `now`: the signature is checked first, then the
   * expiry; a token is live strictly before its `exp`.
   */
  function Decode(secret: string, sign: Signer, token: Token, now: int): (r: Decoded)
    ensures r.Payload? <==> Signed(secret, sign, token) && now < token.exp
    ensures r.Payload? ==> r.claims == token.claims
    ensures r == Rejected(InvalidSignature) <==> !Signed(secret, sign, token)
    ensures r == Rejected(ExpiredSignature) <==> Signed(secret, sign, token) && token.exp <= now
  {
    if !Signed(secret, sign, token) then Rejected(InvalidSignature)
    else if token.exp <= now then Rejected(ExpiredSignature)
    else Payload(token.claims)
  }

  /** A token whose signature was altered no longer decodes. */
  lemma TamperedSignatureRejected(secret: string, sign: Signer, t: Token, forged: string, now: int)
    requires Signed(secret, sign, t) && forged != t.sig
    ensures Decode(secret, sign, t.(sig := forged), now) == Rejected(InvalidSignature)
  {
  }

  /**
   * A token signed under another secret is refused exactly when the server's
   * MAC of its payload differs from the token's signature. With the MAC an
   * abstract function, that is all that can be said about foreign secrets.
   */
  lemma ForeignSecretRejected(secret: string, other: string, sign: Signer, t: Token, now: int)
    requires Signed(other, sign, t)
    requires sign(other, t.claims, t.exp) != sign(secret, t.claims, t.exp)
    ensures Decode(secret, sign, t, now) == Rejected(InvalidSignature)
  {
  }
}
