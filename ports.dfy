/** What the auth handlers call but this model does not look inside: the
    password hasher and the token service. Each is a pair of total functions;
    what the handlers rely on them for is stated as a predicate that a lemma
    takes as a hypothesis. */
module Ports {
  import opened Common

  /** A token's payload: the subject and the email. */
  datatype Claims = Claims(sub: string, email: string)

  /** A token's lifetime: the service's configured default, or a number of
      days. */
  datatype Ttl = DefaultTtl | Days(n: nat)

  /** The refresh tokens' lifetime, seven days. */
  const REFRESH_TTL: Ttl := Days(7)

  const SECONDS_PER_DAY: nat := 86400

  /** `hashPassword` and `comparePassword`. */
  datatype Hasher = Hasher(hash: string -> string, compare: (string, string) -> bool)

  /** A password always matches its own hash. */
  ghost predicate HashSound(h: Hasher) {
    forall p :: h.compare(p, h.hash(p))
  }

  /** `sign`, `verify`, and the lifetime of tokens signed without one. */
  datatype Issuer = Issuer(sign: (Claims, Ttl, Time) -> string, verify: (string, Time) -> Result<Claims, string>,
                           accessSeconds: nat)

  /** How long, in seconds, a token signed with `ttl` is accepted. */
  function Lifetime(iss: Issuer, ttl: Ttl): (s: nat)
    ensures ttl.Days? ==> s == ttl.n * SECONDS_PER_DAY
    ensures ttl.DefaultTtl? ==> s == iss.accessSeconds
  {
    match ttl
    case DefaultTtl => iss.accessSeconds
    case Days(n) => n * SECONDS_PER_DAY
  }

  /** A token verifies to the claims it was signed with for as long as its
      lifetime lasts. */
  ghost predicate IssuerSound(iss: Issuer) {
    forall c, ttl, t, now :: t <= now < t + Lifetime(iss, ttl) ==> iss.verify(iss.sign(c, ttl, t), now) == Ok(c)
  }

  /** A refresh token signed at `t` is accepted for the whole of the next seven
      days. */
  lemma RefreshTokenLasts(iss: Issuer, c: Claims, t: Time, now: Time)
    requires IssuerSound(iss)
    requires t <= now < t + 7 * SECONDS_PER_DAY
    ensures iss.verify(iss.sign(c, REFRESH_TTL, t), now) == Ok(c)
  {
    assert Lifetime(iss, REFRESH_TTL) == 7 * SECONDS_PER_DAY;
  }
}
