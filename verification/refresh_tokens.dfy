/** Refresh tokens: a table keyed by the token text, each row naming its
    user, its expiry and whether it was revoked. The clock, the random bytes
    of a new token and the configured lifetime are parameters. */
module RefreshTokens {
  import opened Common
  import opened Domain
  import opened Hex

  /** `REFRESH_TOKEN_EXPIRES_IN_DAYS` when the environment does not set it. */
  const DEFAULT_EXPIRES_IN_DAYS: int := 7
  const TOKEN_BYTES: nat := 64

  const INVALID: string := "Invalid refresh token"
  const REVOKED: string := "Refresh token has been revoked"
  const EXPIRED: string := "Refresh token has expired"

  datatype TokenRow = TokenRow(userId: int, expiresAt: int, isRevoked: bool)

  type Tokens = map<string, TokenRow>

  /** A new token and the table holding it. */
  datatype Created = Created(tokens: Tokens, token: string)

  /** `createRefreshToken`: the hex text of the random bytes, unrevoked,
      expiring `days` days after `now`. The insert fails on the unique token
      column when the text is already taken, which is `None` here. */
  function CreateRefreshToken(tokens: Tokens, userId: int, now: int, bytes: seq<Byte>, days: int): (r: Option<Created>)
    ensures r.None? <==> ToHex(bytes) in tokens
    ensures r.Some? ==>
      (r.value.token !in tokens && r.value.tokens.Keys == tokens.Keys + {r.value.token}
       && (forall t :: t in tokens ==> r.value.tokens[t] == tokens[t])
       && |r.value.token| == 2 * |bytes|
       && (forall k :: 0 <= k < |r.value.token| ==> IsHexDigit(r.value.token[k]))
       && FromHex(r.value.token) == bytes
       && r.value.tokens[r.value.token] == TokenRow(userId, now + days * DAY_MS, false))
  {
    var token := ToHex(bytes);
    if token in tokens then None
    else
      FromToHex(bytes);
      Some(Created(tokens[token := TokenRow(userId, now + days * DAY_MS, false)], token))
  }

  /** The answer of `verifyRefreshToken`: the user id, or the message of the
      error it throws. */
  datatype Verdict = Accepted(userId: int) | Rejected(message: string)

  /** `verifyRefreshToken`: unknown, then revoked, then expired (strictly
      after the expiry); otherwise the token's user. */
  function VerifyRefreshToken(tokens: Tokens, token: string, now: int): (r: Verdict)
    ensures token !in tokens <==> r == Rejected(INVALID)
    ensures token in tokens && tokens[token].isRevoked <==> r == Rejected(REVOKED)
    ensures r == Rejected(EXPIRED) <==> token in tokens && !tokens[token].isRevoked && now > tokens[token].expiresAt
    ensures r.Accepted? <==> token in tokens && !tokens[token].isRevoked && now <= tokens[token].expiresAt
    ensures r.Accepted? ==> r.userId == tokens[token].userId
  {
    if token !in tokens then Rejected(INVALID)
    else
      var row := tokens[token];
      if row.isRevoked then Rejected(REVOKED)
      else if now > row.expiresAt then Rejected(EXPIRED)
      else Accepted(row.userId)
  }

  /** A new token verifies for its user until its expiry, inclusive; with
      the default lifetime that is seven days. */
  lemma NewTokenVerifies(tokens: Tokens, userId: int, now: int, bytes: seq<Byte>, days: int, t: int)
    requires CreateRefreshToken(tokens, userId, now, bytes, days).Some?
    requires now <= t <= now + days * DAY_MS
    ensures var c := CreateRefreshToken(tokens, userId, now, bytes, days).value;
            VerifyRefreshToken(c.tokens, c.token, t) == Accepted(userId)
  {
  }

  /** `revokeToken`: only that token is marked revoked. */
  function RevokeToken(tokens: Tokens, token: string): (r: Tokens)
    ensures r.Keys == tokens.Keys
    ensures forall t :: t in tokens && t != token ==> r[t] == tokens[t]
    ensures token in tokens ==> r[token] == tokens[token].(isRevoked := true)
  {
    if token in tokens then tokens[token := tokens[token].(isRevoked := true)] else tokens
  }

  /** After `revokeToken` the token is refused as revoked, and every other
      token verifies as before. */
  lemma RevokedTokenIsRefused(tokens: Tokens, token: string, other: string, now: int)
    requires token in tokens && other != token
    ensures VerifyRefreshToken(RevokeToken(tokens, token), token, now) == Rejected(REVOKED)
    ensures VerifyRefreshToken(RevokeToken(tokens, token), other, now) == VerifyRefreshToken(tokens, other, now)
  {
  }

  /** `revokeUserTokens`: every token of the user is revoked. */
  function RevokeUserTokens(tokens: Tokens, userId: int): (r: Tokens)
    ensures r.Keys == tokens.Keys
    ensures forall t :: t in tokens ==> r[t] == if tokens[t].userId == userId then tokens[t].(isRevoked := true) else tokens[t]
  {
    map t | t in tokens :: if tokens[t].userId == userId then tokens[t].(isRevoked := true) else tokens[t]
  }

  /** After `revokeUserTokens` no token of that user verifies, and tokens of
      other users verify as before. */
  lemma UserTokensAreRefused(tokens: Tokens, userId: int, token: string, now: int)
    ensures var after := RevokeUserTokens(tokens, userId);
      token in tokens && tokens[token].userId == userId ==> VerifyRefreshToken(after, token, now) == Rejected(REVOKED)
    ensures var after := RevokeUserTokens(tokens, userId);
      !(token in tokens && tokens[token].userId == userId) ==> VerifyRefreshToken(after, token, now) == VerifyRefreshToken(tokens, token, now)
  {
  }

  /** The rows that survive a cleanup and how many were deleted. */
  datatype Cleaned = Cleaned(tokens: Tokens, count: nat)

  /** `cleanupExpiredTokens`: delete every token whose expiry is before
      `now`, revoked or not, and report how many went. */
  function CleanupExpiredTokens(tokens: Tokens, now: int): (r: Cleaned)
    ensures r.tokens.Keys <= tokens.Keys
    ensures forall t :: t in tokens ==> (t in r.tokens <==> tokens[t].expiresAt >= now)
    ensures forall t :: t in r.tokens ==> r.tokens[t] == tokens[t]
    ensures r.count == |tokens.Keys| - |r.tokens.Keys|
  {
    var kept := map t | t in tokens && tokens[t].expiresAt >= now :: tokens[t];
    var gone := set t | t in tokens && tokens[t].expiresAt < now;
    assert tokens.Keys == kept.Keys + gone && kept.Keys !! gone;
    Cleaned(kept, |gone|)
  }

  /** Cleaning up never changes whether a token is accepted: the tokens it
      deletes had already expired. */
  lemma CleanupKeepsAcceptance(tokens: Tokens, token: string, now: int)
    ensures VerifyRefreshToken(CleanupExpiredTokens(tokens, now).tokens, token, now).Accepted?
        <==> VerifyRefreshToken(tokens, token, now).Accepted?
  {
  }
}
