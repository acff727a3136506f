/**
 * The optional authentication middleware of utils/optionalAuthMiddleware.js. It
 * reads a bearer token from the `Authorization` header and sets `req.user` to the
 * verified token payload, or to null when there is no usable token. The request
 * always continues: `next()` is called once on every path, so this middleware
 * never rejects a request.
 *
 * `jwt.verify` with the access-token secret is a parameter: it yields the payload
 * or an error (a bad signature, an expired token, a malformed token).
 */
module OptionalAuth {
  import opened Wrappers
  import opened Strings

  /** The token taken from the header: the second space-separated piece, when the
      header is present and non-empty and that piece exists and is non-empty. */
  function BearerToken(header: Option<string>): (token: Option<string>)
    ensures token.Some? ==> header.Some? && header.value != "" && token.value != "" && ' ' !in token.value
  {
    if header.None? || header.value == "" then None
    else
      var pieces := Split(header.value, ' ');
      JoinSplit(header.value, ' ');
      if |pieces| < 2 || pieces[1] == "" then None else Some(pieces[1])
  }

  /** `req.user` after the middleware: the verified payload, or none. A verification
      error is caught and leaves the request without a user. */
  function OptionalAuthUser<Claims>(header: Option<string>, verify: string -> Result<Claims, string>): (user: Option<Claims>)
    ensures user.Some? ==> BearerToken(header).Some? && verify(BearerToken(header).value) == Ok(user.value)
    ensures BearerToken(header).Some? && verify(BearerToken(header).value).Ok? ==> user.Some?
  {
    var token := BearerToken(header);
    if token.None? then None
    else
      var verified := verify(token.value);
      if verified.Err? then None else Some(verified.value)
  }

  /** A header `scheme token`, where neither part holds a space and the token is
      non-empty, authenticates exactly the payload the token verifies to. The scheme
      itself is not checked. */
  lemma SchemeAndToken<Claims>(scheme: string, token: string, verify: string -> Result<Claims, string>)
    requires ' ' !in scheme && ' ' !in token && token != ""
    ensures BearerToken(Some(scheme + " " + token)) == Some(token)
    ensures OptionalAuthUser(Some(scheme + " " + token), verify) ==
            (if verify(token).Ok? then Some(verify(token).value) else None)
  {
    var h := scheme + " " + token;
    var tail := [' '] + token;
    assert h == scheme + tail;
    SplitAfterPlainPrefix(scheme, tail, ' ');
    SplitAfterPlainPrefix(token, "", ' ');
    assert token + "" == token;
    assert tail[1..] == token;
    assert Split(tail, ' ') == [""] + Split(token, ' ');
    assert scheme + "" == scheme;
  }

  /** A header of one word (no space), and no header at all, leave the request
      without a user, whatever the verifier would say. */
  lemma OneWordNoUser<Claims>(header: Option<string>, verify: string -> Result<Claims, string>)
    requires header.Some? ==> ' ' !in header.value
    ensures BearerToken(header).None?
    ensures OptionalAuthUser(header, verify).None?
  {
    if header.Some? {
      var h := header.value;
      SplitAfterPlainPrefix(h, "", ' ');
      assert h + "" == h;
    }
  }

  /** Two spaces after the scheme leave an empty second piece, so the request goes
      on without a user even when a valid token follows. */
  lemma DoubleSpaceNoUser<Claims>(scheme: string, rest: string, verify: string -> Result<Claims, string>)
    requires ' ' !in scheme
    ensures BearerToken(Some(scheme + "  " + rest)).None?
    ensures OptionalAuthUser(Some(scheme + "  " + rest), verify).None?
  {
    var h := scheme + "  " + rest;
    var tail := [' '] + ([' '] + rest);
    assert h == scheme + tail;
    SplitAfterPlainPrefix(scheme, tail, ' ');
    assert tail[1..] == [' '] + rest;
    assert Split(tail, ' ') == [""] + Split([' '] + rest, ' ');
    assert ([' '] + rest)[1..] == rest;
    assert Split([' '] + rest, ' ')[0] == "";
  }
}
