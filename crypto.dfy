/** The two foreign primitives the services use, as abstract functions.
    bcrypt: `hash(secret, salt)` gives a digest that `compare` accepts for that
    secret and no other. JWT: a signed claims bundle `{sub, sessionId}`; access
    and refresh tokens are signed with different secrets, and the signer
    stamps each token with its issue time in whole seconds. */
module Crypto {

  import opened Common

  /** A salted adaptive digest, remembering the secret it was produced from. */
  datatype Digest<S> = Digest(preimage: S, salt: nat)

  /** `bcrypt.compare(secret, digest)`. */
  predicate Compare<S(==)>(secret: S, d: Digest<S>)
  {
    d.preimage == secret
  }

  /** `bcrypt.hash(secret, salt)`. */
  function Hash<S(!new)(==)>(secret: S, salt: nat): (d: Digest<S>)
    ensures forall x :: Compare(x, d) <==> x == secret
  {
    Digest(secret, salt)
  }

  datatype TokenKind = Access | Refresh

  /** The payload both tokens carry. */
  datatype Claims = Claims(sub: string, sessionId: string)

  datatype Jwt = Jwt(claims: Claims, kind: TokenKind, issuedAt: int)

  /** Checks a token's signature against the secret of `kind`; expiry is not
      part of this model. */
  function Verify(t: Jwt, kind: TokenKind): (r: Option<Claims>)
  {
    if t.kind == kind then Some(t.claims) else None
  }

  /** `jwtService.signAsync(payload, {secret of kind})` at time `nowMs`. */
  function Sign(claims: Claims, kind: TokenKind, nowMs: int): (t: Jwt)
    ensures Verify(t, kind) == Some(claims)
    ensures forall other :: other != kind ==> Verify(t, other) == None
  {
    Jwt(claims, kind, nowMs / 1000)
  }
}
