/** The token utility: issues a signed token for a username and answers whether a token is
    valid and whose it is. The secret, the lifetime and the clock are explicit parameters. */
module JwtUtil {
  import opened Wrappers
  import opened Exceptions
  import opened Text
  import opened Jws

  /** The configured signing secret and token lifetime in milliseconds. */
  datatype Config = Config(secret: string, expiration: int)

  /** Java's long division by a positive constant, which truncates toward zero. */
  function JavaDiv(a: int, b: int): (q: int)
    requires b > 0
    ensures a >= 0 ==> q * b <= a < q * b + b
    ensures a < 0 ==> q * b - b < a <= q * b
  {
    if a >= 0 then a / b else -((-a) / b)
  }

  /** The expiry `now + expiration` in whole seconds, as setExpiration stores it. */
  function ExpirySeconds(cfg: Config, now: int): int {
    JavaDiv(now + cfg.expiration, 1000)
  }

  /** generateToken: subject the username (dropped by the builder when blank), expiry
      `now + expiration` stored as a NumericDate, so cut to whole seconds toward zero, and
      signed with the secret, which the builder refuses when empty. */
  function GenerateToken(cfg: Config, username: string, now: int): (r: Result<Token>)
    ensures r.Err? <==> cfg.secret == ""
    ensures r.Err? ==> r.error == IllegalArgument
    ensures r.Ok? ==> SignedWith(cfg.secret, r.value)
    ensures r.Ok? ==> (r.value.claims.sub.Some? <==> HasText(username))
    ensures r.Ok? && r.value.claims.sub.Some? ==> r.value.claims.sub.value == username
    ensures r.Ok? ==> r.value.claims.exp == Some(ExpirySeconds(cfg, now))
    ensures r.Ok? && now + cfg.expiration >= 0 ==>
      r.value.claims.exp.value * 1000 <= now + cfg.expiration < r.value.claims.exp.value * 1000 + 1000
    ensures r.Ok? && now + cfg.expiration < 0 ==>
      r.value.claims.exp.value * 1000 - 1000 < now + cfg.expiration <= r.value.claims.exp.value * 1000
  {
    Sign(cfg.secret, Build(username, ExpirySeconds(cfg, now)))
  }

  /** getClains: the parsed claims, or None whatever went wrong; nothing is thrown. */
  function GetClaims(cfg: Config, token: Token, now: int): (r: Option<Claims>)
    ensures r.Some? <==>
      && cfg.secret != ""
      && SignedWith(cfg.secret, token)
      && (token.claims.exp.None? || now <= token.claims.exp.value * 1000)
    ensures r.Some? ==> r.value == token.claims
  {
    Parse(cfg.secret, token, now)
  }

  /** tokenValido: claims present, subject and expiry present, and now strictly before the
      expiry instant. */
  function TokenValido(cfg: Config, token: Token, now: int): (valid: bool)
    ensures valid <==>
      && cfg.secret != ""
      && SignedWith(cfg.secret, token)
      && token.claims.sub.Some?
      && token.claims.exp.Some?
      && now < token.claims.exp.value * 1000
  {
    match GetClaims(cfg, token, now)
    case Some(claims) =>
      (match (claims.sub, ExpirationMillis(claims))
        case (Some(_), Some(expiry)) => now < expiry
        case _ => false)
    case None => false
  }

  /** getUsername: the subject of the parsed claims, or None when parsing failed. It does
      no expiry check of its own beyond what the parser does. */
  function GetUsername(cfg: Config, token: Token, now: int): (r: Option<string>)
    ensures r.Some? <==>
      && cfg.secret != ""
      && SignedWith(cfg.secret, token)
      && token.claims.sub.Some?
      && (token.claims.exp.None? || now <= token.claims.exp.value * 1000)
    ensures r.Some? ==> r == token.claims.sub
  {
    match GetClaims(cfg, token, now)
    case Some(claims) => claims.sub
    case None => None
  }

  /** The username an issued token reports: the username itself, unless the builder dropped
      it as blank. */
  function Reported(username: string): Option<string> {
    if HasText(username) then Some(username) else None
  }

  /** A token issued with a lifetime of at least one second is valid at the instant it is
      issued exactly when its username has text, and reports that username. */
  lemma ValidWhenIssued(cfg: Config, username: string, now: int)
    requires cfg.expiration >= 1000
    ensures var r := GenerateToken(cfg, username, now);
      r.Ok? ==> (TokenValido(cfg, r.value, now) <==> HasText(username))
    ensures var r := GenerateToken(cfg, username, now);
      r.Ok? ==> GetUsername(cfg, r.value, now) == Reported(username)
  {
    var q := ExpirySeconds(cfg, now);
    assert q * 1000 > now;
  }

  /** An issued token with a username that has text stays valid exactly until its expiry
      instant: valid strictly before, invalid at that instant and after. */
  lemma ValidUntilExpiry(cfg: Config, username: string, issued: int, now: int)
    ensures var r := GenerateToken(cfg, username, issued);
      r.Ok? ==> (TokenValido(cfg, r.value, now) <==> HasText(username) && now < r.value.claims.exp.value * 1000)
  {
  }

  /** Round trip: the username of an issued token, read under the same secret at any time up
      to its expiry instant, is the username it was issued for, or absent when it was blank. */
  lemma UsernameRoundTrip(cfg: Config, username: string, issued: int, now: int)
    requires now <= ExpirySeconds(cfg, issued) * 1000
    ensures var r := GenerateToken(cfg, username, issued);
      r.Ok? ==> GetUsername(cfg, r.value, now) == Reported(username)
  {
  }

  /** At the expiry instant the token is no longer valid, yet getUsername, which adds no
      expiry check to the parser's, still returns its subject. */
  lemma UsernameAtExpiryInstant(cfg: Config, username: string, issued: int)
    ensures var r := GenerateToken(cfg, username, issued);
      r.Ok? ==>
        var expiry := r.value.claims.exp.value * 1000;
        && !TokenValido(cfg, r.value, expiry)
        && GetUsername(cfg, r.value, expiry) == Reported(username)
  {
  }

  /** A token issued for a blank username carries no subject, so it is never valid and
      reports no username. */
  lemma BlankUsernameNeverValid(cfg: Config, username: string, issued: int, now: int)
    requires !HasText(username)
    ensures var r := GenerateToken(cfg, username, issued);
      r.Ok? ==> r.value.claims.sub == None && !TokenValido(cfg, r.value, now) && GetUsername(cfg, r.value, now) == None
  {
  }

  /** With an empty secret no token can be issued, and no token is valid or readable. */
  lemma EmptySecretRejected(cfg: Config, username: string, token: Token, now: int)
    requires cfg.secret == ""
    ensures GenerateToken(cfg, username, now) == Err(IllegalArgument)
    ensures GetClaims(cfg, token, now) == None
    ensures !TokenValido(cfg, token, now) && GetUsername(cfg, token, now) == None
  {
  }

  /** A token issued under one secret is neither valid nor readable under another. */
  lemma OtherSecretRejected(cfg: Config, other: Config, username: string, issued: int, now: int)
    requires cfg.secret != other.secret
    ensures var r := GenerateToken(cfg, username, issued);
      r.Ok? ==> !TokenValido(other, r.value, now) && GetUsername(other, r.value, now) == None
  {
  }

  /** Unsigned and malformed tokens are never valid and have no username. */
  lemma UnsignedOrMalformedRejected(cfg: Config, token: Token, now: int)
    requires !token.Signed?
    ensures !TokenValido(cfg, token, now) && GetUsername(cfg, token, now) == None
  {
  }

  /** Cutting the expiry to whole seconds can make a token with a lifetime under one second
      invalid the moment it is issued: 2600 ms plus 300 ms gives an expiry of 2000 ms. */
  lemma ShortLifetimeExpiredWhenIssued()
    ensures var r := GenerateToken(Config("k", 300), "u", 2600);
      r.Ok? && r.value.claims.exp == Some(2) && !TokenValido(Config("k", 300), r.value, 2600)
  {
  }

  /** tokenValido and getUsername read everything through getClains: valid means claims came
      back with a subject and an expiry later than now, and the username is the subject of
      whatever claims came back. */
  lemma ValidityThroughClaims(cfg: Config, token: Token, now: int)
    ensures TokenValido(cfg, token, now) <==>
      var c := GetClaims(cfg, token, now);
      c.Some? && c.value.sub.Some? && c.value.exp.Some? && now < c.value.exp.value * 1000
    ensures GetUsername(cfg, token, now) == (if GetClaims(cfg, token, now).Some? then GetClaims(cfg, token, now).value.sub else None)
  {
  }

  /** tokenValido reads the clock twice: the parser at `parsedAt`, then its own `before` check
      at `now`. With a clock that does not go back, the outcome is the one-reading model at
      the later reading. */
  lemma SingleClockReadSuffices(cfg: Config, token: Token, parsedAt: int, now: int)
    requires parsedAt <= now
    ensures TokenValido(cfg, token, now) <==>
      var c := GetClaims(cfg, token, parsedAt);
      c.Some? && c.value.sub.Some? && c.value.exp.Some? && now < c.value.exp.value * 1000
  {
  }
}
