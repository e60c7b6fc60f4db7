/** The `authenticate` middleware in front of every task route: it reads the
    `Authorization` header, insists on the `Bearer ` scheme (compare section 2.1
    of RFC 6750, here matched case-sensitively), takes the token with
    `split(' ')[1]`, verifies it, and either answers 401 or passes the request on
    with the caller's user id. Writing `userId` onto the request object is
    modelled as the `Next` outcome carrying it. */
module AuthGuard {
  import opened Schema
  import opened Crypto
  import opened Text

  const BearerPrefix := "Bearer "

  const NoTokenProvided := Response(401, Message("No token provided"))
  const InvalidOrExpired := Response(401, Message("Invalid or expired token"))

  /** Exactly one of: a 401 reply, or one call of `next()` with the caller's id. */
  datatype GuardOutcome = Reject(response: Response) | Next(userId: nat)

  /** The header the frontend's request interceptor attaches. */
  function AuthHeader(token: string): (h: string)
    ensures BearerPrefix <= h && h[|BearerPrefix|..] == token
  {
    BearerPrefix + token
  }

  /** `header.split(' ')[1]` for a header that starts with `Bearer `. */
  function ExtractToken(header: string): (token: string)
    requires BearerPrefix <= header
    ensures ' ' !in token
    ensures BearerPrefix + token <= header
    ensures |header| == |BearerPrefix| + |token| || header[|BearerPrefix| + |token|] == ' '
  {
    var rest := header[|BearerPrefix|..];
    assert header == "Bearer" + [' '] + rest;
    SplitWithoutSeparator("Bearer", ' ');
    SplitAt("Bearer", rest, ' ');
    SplitHead(rest, ' ');
    Split(header, ' ')[1]
  }

  /** The middleware, on the header value (None when the header is absent). */
  function Authenticate(header: Option<string>, c: Primitives, now: int): (r: GuardOutcome)
    ensures r == Reject(NoTokenProvided) <==> header.None? || !(BearerPrefix <= header.value)
    ensures r == Reject(InvalidOrExpired) <==>
      header.Some? && BearerPrefix <= header.value && c.verify(ExtractToken(header.value), now).None?
    ensures r.Next? <==>
      header.Some? && BearerPrefix <= header.value && c.verify(ExtractToken(header.value), now).Some?
    ensures r.Next? ==> c.verify(ExtractToken(header.value), now) == Some(r.userId)
    ensures r.Reject? ==> r.response.status == 401
  {
    if header.None? || !(BearerPrefix <= header.value) then Reject(NoTokenProvided)
    else
      match c.verify(ExtractToken(header.value), now)
      case None => Reject(InvalidOrExpired)
      case Some(id) => Next(id)
  }

  /** The token the frontend attaches is the token the middleware extracts. */
  lemma {:induction false} HeaderRoundTrip(token: string)
    requires ' ' !in token
    ensures ExtractToken(AuthHeader(token)) == token
  {
    var h := AuthHeader(token);
    var t := ExtractToken(h);
    assert h[..|BearerPrefix| + |t|] == BearerPrefix + t;
  }

  /** A token this backend signed passes the guard with its subject while it
      is unexpired, and is refused as invalid or expired afterwards. */
  lemma SignedTokenAuthenticates(c: Primitives, id: nat, iat: int, now: int)
    requires Sound(c)
    ensures Authenticate(Some(AuthHeader(c.sign(id, iat))), c, now) ==
      if now < iat + TokenLifetime then Next(id) else Reject(InvalidOrExpired)
  {
    HeaderRoundTrip(c.sign(id, iat));
  }

  /** `Bearer ` with nothing after it passes the prefix test and fails
      verification: it is an invalid token, not a missing one. */
  lemma EmptyBearerIsInvalid(c: Primitives, now: int)
    requires Sound(c)
    ensures Authenticate(Some(BearerPrefix), c, now) == Reject(InvalidOrExpired)
  {
    HeaderRoundTrip("");
  }

  /** The scheme is matched case-sensitively. */
  lemma LowercaseSchemeRefused(token: string, c: Primitives, now: int)
    ensures Authenticate(Some("bearer " + token), c, now) == Reject(NoTokenProvided)
  {
    assert ("bearer " + token)[0] != BearerPrefix[0];
  }
}
