/** The `authenticateToken` middleware of the server: the token is the second
    space-separated piece of the `Authorization` header; without one the
    request is refused with 401 before the token is ever verified. */
module BearerAuth {
  import opened Wrappers
  import opened Text

  /** `authHeader && authHeader.split(' ')[1]`, kept only when truthy. */
  function ExtractToken(header: Option<string>): (t: Option<string>)
    ensures t.Some? ==> t.value != "" && ' ' !in t.value
    ensures header.None? ==> t.None?
  {
    if header.None? || header.value == "" then None
    else
      var pieces := Split(header.value, ' ');
      if |pieces| < 2 || pieces[1] == "" then None else Some(pieces[1])
  }

  /** The middleware's verdict: 401, 403, or `next()` with the token's
      claims. `verify` stands for the signature check of the JSON Web Token
      library: the claims of a valid token, None otherwise. */
  datatype Verdict<+U> = Unauthorized | Forbidden | Authorized(user: U)

  function Authenticate<U>(header: Option<string>, verify: string -> Option<U>): (v: Verdict<U>)
    ensures ExtractToken(header).None? ==> v == Unauthorized
    ensures ExtractToken(header).Some? ==>
      (v == Forbidden <==> verify(ExtractToken(header).value).None?)
    ensures v.Authorized? ==>
      ExtractToken(header).Some? && verify(ExtractToken(header).value) == Some(v.user)
    ensures ExtractToken(header).Some? && verify(ExtractToken(header).value).Some? ==>
      v == Authorized(verify(ExtractToken(header).value).value)
  {
    match ExtractToken(header)
    case None => Unauthorized
    case Some(token) =>
      match verify(token)
      case None => Forbidden
      case Some(user) => Authorized(user)
  }

  /** A header with no token is refused with 401 whatever `verify` would say. */
  lemma MissingTokenIgnoresVerifier<U>(header: Option<string>, verify1: string -> Option<U>, verify2: string -> Option<U>)
    requires ExtractToken(header).None?
    ensures Authenticate(header, verify1) == Authenticate(header, verify2) == Unauthorized
  {
  }

  /** `Bearer <token>` (any first word) yields the token, and so does a header
      with further space-separated words after it. */
  lemma {:induction false} SecondPieceIsToken(scheme: string, token: string, rest: string)
    requires ' ' !in scheme && ' ' !in token && token != ""
    ensures ExtractToken(Some(scheme + " " + token)) == Some(token)
    ensures ExtractToken(Some(scheme + " " + token + " " + rest)) == Some(token)
  {
    SplitAfterPiece(scheme, ' ', token);
    SplitNoSep(token, ' ');
    assert scheme + " " + token == scheme + [' '] + token;
    var h := scheme + " " + token + " " + rest;
    assert h == scheme + [' '] + (token + [' '] + rest);
    SplitAfterPiece(scheme, ' ', token + [' '] + rest);
    SplitAfterPiece(token, ' ', rest);
  }

  /** A header without a space — such as a bare token — has no second piece. */
  lemma NoSpaceNoToken(header: string)
    requires ' ' !in header
    ensures ExtractToken(Some(header)) == None
  {
    if header != "" {
      SplitNoSep(header, ' ');
    }
  }

  /** A scheme followed by one space and nothing else has an empty second
      piece: 401. */
  lemma TrailingSpaceNoToken(scheme: string)
    requires ' ' !in scheme
    ensures ExtractToken(Some(scheme + " ")) == None
  {
    assert scheme + " " == scheme + [' '] + "";
    SplitAfterPiece(scheme, ' ', "");
  }

  /** Two spaces after the scheme leave the second piece empty: 401. */
  lemma DoubleSpaceNoToken(scheme: string, rest: string)
    requires ' ' !in scheme
    ensures ExtractToken(Some(scheme + "  " + rest)) == None
  {
    var h := scheme + "  " + rest;
    assert h == scheme + [' '] + ([' '] + rest);
    SplitAfterPiece(scheme, ' ', [' '] + rest);
    assert [' '] + rest == [] + [' '] + rest;
    SplitAfterPiece([], ' ', rest);
  }
}
