/** The slice of the JWT library the token utility relies on: building a signed token and
    parsing one back. The signature is a symbolic term rather than an HMAC computation, so
    it matches only for the same key and the same claims, an ideal MAC. */
module Jws {
  import opened Wrappers
  import opened Exceptions
  import opened Text

  /** The registered claims the utility sets: "sub" (section 4.1.2 of RFC 7519) and "exp"
      (section 4.1.4), the latter a NumericDate, whole seconds since the epoch. */
  datatype Claims = Claims(sub: Option<string>, exp: Option<int>)

  /** An HS512 signature (section 3.2 of RFC 7518) over the claims under a key. */
  datatype Signature = Hs512(key: string, claims: Claims)

  /** A token as the parser sees it: a signed JWS, an unsigned JWT, or text that is not a
      token at all. */
  datatype Token =
    | Signed(claims: Claims, signature: Signature)
    | Unsigned(claims: Claims)
    | Malformed(text: string)

  /** The token carries a signature that verifies under `key`. */
  predicate SignedWith(key: string, token: Token) {
    token.Signed? && token.signature == Hs512(key, token.claims)
  }

  /** builder().setSubject(subject).setExpiration(expiry): the builder starts with no claims,
      and setSubject only creates them for a subject with text, so a blank subject is dropped
      silently; setExpiration then creates the claims and records the expiry. */
  function Build(subject: string, expSeconds: int): (c: Claims)
    ensures c.sub.Some? <==> HasText(subject)
    ensures c.sub.Some? ==> c.sub.value == subject
    ensures c.exp == Some(expSeconds)
  {
    Claims(if HasText(subject) then Some(subject) else None, Some(expSeconds))
  }

  /** signWith(HS512, key).compact(): the builder refuses an empty key with an
      IllegalArgumentException; otherwise the token carries the claims and a signature that
      verifies under the key. */
  function Sign(key: string, claims: Claims): (r: Result<Token>)
    ensures r.Err? <==> key == ""
    ensures r.Err? ==> r.error == IllegalArgument
    ensures r.Ok? ==> SignedWith(key, r.value) && r.value.claims == claims
  {
    if key == "" then Err(IllegalArgument) else Ok(Signed(claims, Hs512(key, claims)))
  }

  /** The expiry as an instant in milliseconds, the way getExpiration reads the NumericDate. */
  function ExpirationMillis(c: Claims): Option<int> {
    match c.exp
    case Some(s) => Some(s * 1000)
    case None => None
  }

  /** parser().setSigningKey(key).parseClaimsJws(token).getBody(), with every exception it
      throws read as None: setSigningKey refuses an empty key, the token must be a JWS whose
      signature verifies under `key`, and the parser itself rejects a token whose expiry lies
      before `now` (no clock skew). */
  function Parse(key: string, token: Token, now: int): (r: Option<Claims>)
    ensures r.Some? <==>
      key != "" && SignedWith(key, token) && (token.claims.exp.None? || now <= token.claims.exp.value * 1000)
    ensures r.Some? ==> r.value == token.claims
  {
    if key == "" then None
    else match token
      case Signed(claims, signature) =>
        if signature != Hs512(key, claims) then None
        else (match ExpirationMillis(claims)
          case Some(expiry) => if expiry < now then None else Some(claims)
          case None => Some(claims))
      case Unsigned(_) => None
      case Malformed(_) => None
  }

  /** Parsing what was signed under the same key gives the claims back, until they expire;
      only the empty key, which signing refuses, has nothing to parse. */
  lemma SignThenParse(key: string, claims: Claims, now: int)
    requires claims.exp.None? || now <= claims.exp.value * 1000
    ensures Sign(key, claims).Ok? <==> key != ""
    ensures Sign(key, claims).Ok? ==> Parse(key, Sign(key, claims).value, now) == Some(claims)
  {
  }

  /** A token signed under one key never parses under another. */
  lemma ParseUnderOtherKey(key: string, other: string, claims: Claims, now: int)
    requires key != other
    ensures Sign(key, claims).Ok? ==> Parse(other, Sign(key, claims).value, now) == None
  {
  }

  /** A subject made only of spaces, tabs and line breaks is dropped by the builder, while
      one visible character keeps it. */
  lemma BlankSubjectDropped()
    ensures Build("", 7).sub == None
    ensures Build(" \t\n", 7).sub == None
    ensures Build(" a", 7).sub == Some(" a")
  {
    assert !IsWhitespace(" a"[1]);
  }
}
