/** The collaborators the handlers call but do not implement: the JSON Web
    Token library, the bcrypt library and the process configuration. Each
    library is a record of total functions supplied from outside; what the
    handlers rely on is stated as a predicate over that record and assumed
    only by the lemmas that need it. */
module Oracles {

  /** Document ids (MongoDB ObjectIds). Users and posts draw from one id space. */
  type Id = nat

  /** A point in time, in seconds. */
  type Time = int

  datatype Option<+T> = None | Some(value: T) {
    function GetOr(default: T): T {
      match this
      case Some(v) => v
      case None => default
    }
  }

  /** The payload the handlers sign: `{ id, email }`. The registered claims
      `iat` and `exp` are kept inside the token by the library. */
  datatype Claims = Claims(id: Id, email: string)

  /** What `jwt.verify` does with one token: it returns the decoded payload,
      or it throws (malformed token, bad signature, expired token). */
  datatype Verdict = Decoded(claims: Claims) | Rejected(reason: string)

  /** `expiresIn: '1d'`, in seconds. */
  const TokenLifetime: int := 86400

  /** `jwt.sign(claims, secret, { expiresIn: '1d' })` at a given time, and
      `jwt.verify(token, secret)` at a given time. */
  datatype Jwt = Jwt(sign: (Claims, string, Time) -> string,
                     verify: (string, string, Time) -> Verdict)

  /** What a correct token library guarantees under a set (non-empty)
      secret: a token is never empty, it decodes to the claims it was signed
      over under the same secret for one day, and it is rejected once that day
      is over. Nothing is promised for the empty secret, which the library
      refuses. */
  ghost predicate JwtSound(jwt: Jwt) {
    && (forall c, secret, t :: secret != "" ==> jwt.sign(c, secret, t) != "")
    && (forall c, secret, t, now ::
          secret != "" && t <= now < t + TokenLifetime ==>
            jwt.verify(jwt.sign(c, secret, t), secret, now) == Decoded(c))
    && (forall c, secret, t, now ::
          secret != "" && t + TokenLifetime <= now ==>
            jwt.verify(jwt.sign(c, secret, t), secret, now).Rejected?)
  }

  /** `bcrypt.hash(password, 10)` with the salt it draws made explicit, and
      `bcrypt.compare(password, hash)`. */
  datatype Bcrypt = Bcrypt(hash: (string, string) -> string,
                           compare: (string, string) -> bool)

  /** A password always matches its own hash, whatever the salt. */
  ghost predicate BcryptSound(bcrypt: Bcrypt) {
    forall password, salt :: bcrypt.compare(password, bcrypt.hash(password, salt))
  }

  /** `process.env.SECRET` and `process.env.NODE_ENV` (an unset variable is ""). */
  datatype Config = Config(secret: string, nodeEnv: string)

  /** Everything a handler receives from the process rather than the request. */
  datatype Env = Env(config: Config, jwt: Jwt, bcrypt: Bcrypt)
}
