/**
 * The `verifyToken` middleware of auth/token.js: it gates a route on an
 * `Authorization: Bearer <token>` header. The JWT check itself (signature,
 * expiry, secret) is the opaque parameter `verify`, which yields the decoded
 * payload or None when `jwt.verify` throws.
 */
module Auth {

  import opened Wrappers
  import opened Tokens

  /** The JWT payload signed at login: `{ userId, role }`. */
  datatype Claims = Claims(userId: Option<int>, role: Option<string>)

  datatype AuthError = NoToken | BadFormat | InvalidToken

  /** Either the middleware answered 403, or it called `next` with `req.user` set. */
  datatype AuthResult = Denied(error: AuthError) | Authenticated(user: Claims)

  const BearerPrefix: string := "Bearer "

  /** Every denial is answered with this status. */
  const DeniedStatus: int := 403

  function Message(e: AuthError): string {
    match e
    case NoToken => "Access denied, no token provided"
    case BadFormat => "Invalid token format. Expected \"Bearer <token>\""
    case InvalidToken => "Invalid token"
  }

  /**
   * `t` is the token of header `h`: `h` is "Bearer " followed by `t`, and `t`
   * runs up to the next space or the end of the header.
   */
  ghost predicate IsBearerToken(h: string, t: string) {
    && StartsWith(h, BearerPrefix)
    && StartsWith(h[|BearerPrefix|..], t)
    && ' ' !in t
    && (|h| == |BearerPrefix| + |t| || h[|BearerPrefix| + |t|] == ' ')
  }

  /** `token.split(' ')[1]` for a header that passed the prefix check. */
  function BearerToken(h: string): (t: string)
    requires StartsWith(h, BearerPrefix)
    ensures IsBearerToken(h, t)
  {
    var rest := h[|BearerPrefix|..];
    assert h == "Bearer" + " " + rest;
    SplitAfterWord("Bearer", rest);
    FirstPieceIsWord(rest);
    FieldAt(h, 1).value
  }

  /** A header has at most one token. */
  lemma BearerTokenUnique(h: string, t1: string, t2: string)
    requires IsBearerToken(h, t1) && IsBearerToken(h, t2)
    ensures t1 == t2
  {
    var rest := h[|BearerPrefix|..];
    assert |t1| == |t2|;
    assert t1 == rest[..|t1|];
  }

  /** `verifyToken(req, res, next)` */
  function VerifyToken(header: Option<string>, verify: string -> Option<Claims>): (r: AuthResult)
    ensures r == Denied(NoToken) <==> header.None? || header == Some("")
    ensures r == Denied(BadFormat) <==>
              header.Some? && header.value != "" && !StartsWith(header.value, BearerPrefix)
    ensures r.Authenticated? ==>
              header.Some? && StartsWith(header.value, BearerPrefix)
              && verify(BearerToken(header.value)) == Some(r.user)
    ensures r == Denied(InvalidToken) <==>
              header.Some? && StartsWith(header.value, BearerPrefix)
              && verify(BearerToken(header.value)).None?
  {
    if header.None? || header.value == "" then Denied(NoToken)
    else if !StartsWith(header.value, BearerPrefix) then Denied(BadFormat)
    else
      match verify(BearerToken(header.value))
      case None => Denied(InvalidToken)
      case Some(user) => Authenticated(user)
  }

  /**
   * The outcome is decided by the verifier's answer on the header's token:
   * whatever follows the token is never looked at.
   */
  lemma VerifyTokenUsesToken(h: string, t: string, verify: string -> Option<Claims>)
    requires IsBearerToken(h, t)
    ensures verify(t).None? ==> VerifyToken(Some(h), verify) == Denied(InvalidToken)
    ensures verify(t).Some? ==> VerifyToken(Some(h), verify) == Authenticated(verify(t).value)
  {
    BearerTokenUnique(h, t, BearerToken(h));
  }

  /** The prefix is case-sensitive and needs its trailing space. */
  lemma PrefixIsExact(verify: string -> Option<Claims>)
    ensures VerifyToken(Some("bearer abc"), verify) == Denied(BadFormat)
    ensures VerifyToken(Some("Bearerabc"), verify) == Denied(BadFormat)
    ensures VerifyToken(Some("Bearer"), verify) == Denied(BadFormat)
  {
    assert "bearer abc"[..7] != BearerPrefix by { assert "bearer abc"[0] == 'b'; }
    assert "Bearerabc"[..7] != BearerPrefix by { assert "Bearerabc"[6] == 'a'; }
  }

  /** Only the second space-separated piece reaches the verifier. */
  lemma SecondPieceIsToken()
    ensures Split("Bearer a b") == ["Bearer", "a", "b"]
    ensures BearerToken("Bearer a b") == "a"
  {
    assert "Bearer a b" == "Bearer" + " " + ("a" + " " + "b");
    SplitAfterWord("Bearer", "a" + " " + "b");
    SplitAfterWord("a", "b");
    SplitWord("b");
  }

  /** Two spaces after the prefix hand the verifier an empty token. */
  lemma DoubleSpaceGivesEmptyToken()
    ensures BearerToken("Bearer  x") == ""
  {
    BearerTokenUnique("Bearer  x", "", BearerToken("Bearer  x"));
  }
}
