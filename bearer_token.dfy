/**
 * Reading a bearer credential out of an `Authorization` header. The guard
 * reads a form that differs from the `Bearer 1*SP b64token` of section 2.1 of
 * RFC 6750: exactly one space after the scheme (a second space ends an empty
 * token), the scheme compared case-sensitively (section 2.1 of RFC 7235 makes
 * it case-insensitive), and any space-free string as the token.
 */
module BearerToken {
  import opened Options
  import JsString

  const Scheme: string := "Bearer"

  /**
   * `extractTokenFromHeader`: split the header on single spaces; when the
   * first field is exactly the scheme, the second field (or `undefined` when
   * there is none); otherwise `undefined`. A missing header splits to `[]`.
   */
  function ExtractToken(authorization: Option<string>): (token: Option<string>)
    ensures token.Some? ==> ' ' !in token.value
  {
    match authorization
    case None => None
    case Some(header) =>
      var fields := JsString.Split(header, ' ');
      if fields[0] == Scheme then
        (if |fields| > 1 then Some(fields[1]) else None)
      else None
  }

  /** Does the header start with the scheme followed by one space? */
  predicate HasBearerPrefix(header: string) {
    Scheme + " " <= header
  }

  /**
   * The header shape stated directly: a credential exists exactly when the
   * header starts with `Bearer ` and it runs up to the next space or the end.
   */
  function BearerCredential(authorization: Option<string>): Option<string> {
    match authorization
    case None => None
    case Some(header) =>
      if HasBearerPrefix(header) then Some(JsString.FirstField(header[|Scheme| + 1..], ' '))
      else None
  }

  /** The split-based extraction agrees with the direct reading of the header on every header. */
  lemma ExtractTokenIsBearerCredential(authorization: Option<string>)
    ensures ExtractToken(authorization) == BearerCredential(authorization)
  {
    if authorization.Some? {
      var header := authorization.value;
      JsString.SplitHead(header, ' ');
      var f := JsString.FirstField(header, ' ');
      if HasBearerPrefix(header) {
        var rest := header[|Scheme| + 1..];
        assert header == Scheme + ([' '] + rest);
        JsString.FirstFieldOf(Scheme, [' '] + rest, ' ');
        assert f == Scheme;
        var fields := JsString.Split(header, ' ');
        assert fields == [Scheme] + JsString.Split(rest, ' ');
        JsString.SplitHead(rest, ' ');
        var g := JsString.FirstField(rest, ' ');
        if |g| == |rest| {
          assert g == rest;
        }
        assert fields[1] == JsString.Split(rest, ' ')[0] == g;
      } else if f == Scheme {
        assert |f| == |header|;
      }
    }
  }

  /** Only a present header with the scheme and a space yields a token. */
  lemma ExtractTokenSomeIff(authorization: Option<string>)
    ensures ExtractToken(authorization).Some? <==>
      authorization.Some? && HasBearerPrefix(authorization.value)
  {
    ExtractTokenIsBearerCredential(authorization);
  }

  /**
   * The token is the second space-separated field: whatever follows it after
   * a further space is ignored.
   */
  lemma ExtractTokenSecondField(token: string, rest: string)
    requires ' ' !in token
    requires rest == [] || rest[0] == ' '
    ensures ExtractToken(Some(Scheme + " " + token + rest)) == Some(token)
  {
    var header := Scheme + " " + token + rest;
    ExtractTokenIsBearerCredential(Some(header));
    assert header[|Scheme| + 1..] == token + rest;
    JsString.FirstFieldOf(token, rest, ' ');
  }

  /**
   * A trailing space, or a second space, right after the scheme yields the
   * empty token, whatever follows.
   */
  lemma EmptyTokenAfterScheme(rest: string)
    requires rest == [] || rest[0] == ' '
    ensures ExtractToken(Some(Scheme + " " + rest)) == Some("")
  {
    assert Scheme + " " + "" + rest == Scheme + " " + rest;
    ExtractTokenSecondField("", rest);
  }

  /** A bare scheme with no space after it yields no token. */
  lemma BareSchemeGivesNoToken()
    ensures ExtractToken(Some("Bearer")) == None
  {
  }

  /** The scheme is compared case-sensitively. */
  lemma LowerCaseSchemeGivesNoToken()
    ensures ExtractToken(Some("bearer abc")) == None
  {
    assert ("bearer abc")[0] != (Scheme + " ")[0];
    ExtractTokenSomeIff(Some("bearer abc"));
  }
}
