/**
 * The two foreign libraries the backend calls, kept abstract: the password
 * hasher (bcryptjs) and the token signer (jsonwebtoken, RFC 7519 tokens signed
 * with the backend's fixed secret). Each is a value holding the functions the
 * backend calls; nothing is assumed about their internals except through the
 * named soundness predicates, which only the lemmas that need them require.
 */
module Crypto {
  import opened Wrappers

  /** The claims the backend puts into a token and reads back from it. */
  datatype Claims = Claims(id: int, username: string)

  /**
   * bcrypt as the backend sees it. `hash(password, rounds, salt)` is the
   * outcome of `bcrypt.hash` for one call (the salt is the call's randomness);
   * `None` is a rejected promise. `compare(password, digest)` is the outcome of
   * `bcrypt.compare`; `None` is a rejected promise.
   */
  datatype Hasher = Hasher(
    hash: (string, nat, nat) -> Option<string>,
    compare: (string, string) -> Option<bool>)

  /** The cost factor the backend passes to `bcrypt.hash`. */
  const SaltRounds: nat := 10

  /** A digest produced for a password is accepted for that password. */
  ghost predicate HasherSound(h: Hasher)
  {
    forall password, rounds, salt | h.hash(password, rounds, salt).Some? ::
      h.compare(password, h.hash(password, rounds, salt).value) == Some(true)
  }

  /**
   * jsonwebtoken keyed with the backend's secret: `sign` issues a token for
   * some claims, `verify` gives back the claims of a token it accepts and
   * `None` for a missing, malformed or badly signed one.
   */
  datatype Jwt = Jwt(sign: Claims -> string, verify: string -> Option<Claims>)

  /**
   * Tokens round-trip, and a compact JWT is a non-empty run of base64url
   * segments and dots, so it holds no space.
   */
  ghost predicate JwtSound(j: Jwt)
  {
    forall c :: j.verify(j.sign(c)) == Some(c) && ' ' !in j.sign(c)
  }

  /** jsonwebtoken rejects an empty token ("jwt must be provided"). */
  predicate RejectsEmpty(j: Jwt)
  {
    j.verify("") == None
  }
}
