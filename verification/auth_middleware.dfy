/**
 * The `protect` middleware (server/src/middleware/auth.ts): takes the session token
 * from an `Authorization: Bearer <token>` header, verifies it, and either sets
 * `req.user` to the decoded payload and calls `next()` once, or throws a 401.
 * Token verification (signature and expiry) is a parameter.
 */
module AuthMiddleware {
  import opened Js

  /** The token payload: the user's id and e-mail. */
  datatype Claims = Claims(id: nat, email: string)

  const NotAuthorized := "Not authorized to access this route"

  /** The token of an Authorization header: when the header is present, non-empty and
    * starts with "Bearer", the second of its space-separated segments, if there is one. */
  function BearerToken(header: Option<string>): (t: Option<string>)
    ensures t.Some? ==> TruthyStr(header) && StartsWith(header.value, "Bearer") && ' ' !in t.value
    ensures t.Some? ==> |Split(header.value, ' ')| >= 2 && Split(header.value, ' ')[1] == t.value
    ensures TruthyStr(header) && StartsWith(header.value, "Bearer") && ' ' in header.value ==> t.Some?
  {
    if TruthyStr(header) && StartsWith(header.value, "Bearer") then
      var parts := Split(header.value, ' ');
      if |parts| > 1 then Some(parts[1])
      else
        assert ' ' !in header.value by { SplitNoSpace(header.value); }
        None
    else None
  }

  /** A string that splits into one piece has no separator. */
  lemma SplitNoSpace(s: string)
    requires |Split(s, ' ')| == 1
    ensures ' ' !in s
  {
    assert Join(Split(s, ' '), ' ') == Split(s, ' ')[0];
  }

  /** `protect(req, res, next)`: `Ok(claims)` stands for `req.user = claims; next()`. */
  function Protect(header: Option<string>, verify: string -> Option<Claims>): (r: Outcome<Claims>)
    ensures r.Ok? <==> TruthyStr(BearerToken(header)) && verify(BearerToken(header).value).Some?
    ensures r.Ok? ==> r.value == verify(BearerToken(header).value).value
    ensures r.Throw? ==> r.error == Raise(401, NotAuthorized)
  {
    var token := BearerToken(header);
    if !TruthyStr(token) then Throw(Raise(401, NotAuthorized))
    else
      match verify(token.value)
      case None => Throw(Raise(401, NotAuthorized))
      case Some(claims) => Ok(claims)
  }

  /** The header a client builds from a token carries that token back. */
  lemma {:induction false} BearerTokenOfHeader(token: string)
    requires ' ' !in token
    ensures BearerToken(Some("Bearer " + token)) == Some(token)
  {
    var h := "Bearer " + token;
    assert h == "Bearer" + [' '] + token;
    SplitAfter("Bearer", ' ', token);
    SplitNoSep(token, ' ');
    assert Split(h, ' ') == ["Bearer", token];
  }

  /** A well-formed header with a token the verifier accepts lets the request through with
    * the token's claims; the same header with a rejected token gets the 401. */
  lemma ProtectAcceptsVerifiedBearer(token: string, verify: string -> Option<Claims>)
    requires token != "" && ' ' !in token
    ensures verify(token).Some? ==> Protect(Some("Bearer " + token), verify) == Ok(verify(token).value)
    ensures verify(token).None? ==> Protect(Some("Bearer " + token), verify) == Throw(Raise(401, NotAuthorized))
  {
    BearerTokenOfHeader(token);
  }

  /** No token at all: a missing header, a bare "Bearer", or an empty second segment. */
  lemma ProtectRejectsMissingToken(verify: string -> Option<Claims>)
    ensures Protect(None, verify) == Throw(Raise(401, NotAuthorized))
    ensures Protect(Some("Bearer"), verify) == Throw(Raise(401, NotAuthorized))
    ensures Protect(Some("Bearer  x"), verify) == Throw(Raise(401, NotAuthorized))
  {
    assert StartsWith("Bearer", "Bearer");
    SplitNoSep("Bearer", ' ');
    assert "Bearer  x" == "Bearer" + [' '] + ([' '] + "x");
    SplitAfter("Bearer", ' ', [' '] + "x");
    SplitAfter("", ' ', "x");
    assert [] + [' '] + "x" == [' '] + "x";
  }
}
