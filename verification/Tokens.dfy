/** JSON Web Tokens, symbolically: a token is its signed claims, or something that does
    not verify. Timestamps follow sections 4.1.4 and 4.1.6 of RFC 7519 at second precision. */
module Tokens {
  import opened Base
  import opened Accounts

  datatype Kind = Access | Refreshing | Unmarked

  datatype Claims = Claims(
    userId: string,
    isAdmin: bool,
    email: string,
    kind: Kind,
    jti: string,
    issuedAt: Time,
    expiresAt: Time)

  datatype Token = Signed(claims: Claims) | Unverifiable

  datatype TokenPair = TokenPair(access: Claims, refresh: Claims, refreshExpiresAt: Time)

  /** The claims hold floored instants; the pair also carries the exact refresh expiry. */
  function GenerateTokenPair(hours: int, days: int, u: User, accessJti: string, refreshJti: string, now: Time): TokenPair {
    TokenPair(
      Claims(u.id, u.IsAdmin(), u.email, Access, accessJti, FloorSecond(now), FloorSecond(now + hours * HOUR)),
      Claims(u.id, false, u.email, Refreshing, refreshJti, FloorSecond(now), FloorSecond(now + days * DAY)),
      now + days * DAY)
  }

  /** What a pair handed out to a user at an instant must say: each token carries its own identifier and kind, the
      rights are the role's, and both lifetimes count from that instant. */
  ghost predicate PairFor(pair: TokenPair, hours: int, days: int, u: User, accessJti: string, refreshJti: string, now: Time) {
    && pair.access.userId == u.id && pair.access.email == u.email && pair.access.jti == accessJti
    && pair.access.kind == Access && (pair.access.isAdmin <==> u.roleId == 1)
    && pair.access.issuedAt == FloorSecond(now) && pair.access.expiresAt == FloorSecond(now + hours * HOUR)
    && pair.refresh.userId == u.id && pair.refresh.email == u.email && pair.refresh.jti == refreshJti
    && pair.refresh.kind == Refreshing && !pair.refresh.isAdmin
    && pair.refresh.issuedAt == FloorSecond(now) && pair.refresh.expiresAt == FloorSecond(now + days * DAY)
    && pair.refreshExpiresAt == now + days * DAY
  }

  /** Signature and expiry, shared by both kinds. */
  function Parse(t: Token, now: Time): Option<Claims> {
    if t.Signed? && now < t.claims.expiresAt then Some(t.claims) else None
  }

  /** An unmarked token counts as an access token. */
  function ParseToken(t: Token, now: Time): Option<Claims> {
    var c := Parse(t, now);
    if c.Some? && c.value.kind != Refreshing then c else None
  }

  function ParseRefreshToken(t: Token, now: Time): Option<Claims> {
    var c := Parse(t, now);
    if c.Some? && c.value.kind == Refreshing then c else None
  }

  /** A signed token is never both an access and a refresh token, at any time. */
  lemma KindsAreExclusive(t: Token, now: Time, later: Time)
    requires ParseToken(t, now).Some?
    ensures ParseRefreshToken(t, later).None?
  {
  }
}
