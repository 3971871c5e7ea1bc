/**
 * The token handling shared by the Next API handlers organization.ts,
 * fetchTeamsFromLinear.ts and profile.ts: the incoming Authorization
 * header is split at spaces, its second field is taken as the token
 * (an empty string when there is no header or no second field), and the
 * token is forwarded to the backend as "Bearer " followed by it. The
 * header's shape is that of section 2.1 of RFC 6750, but the scheme name
 * in the first field is never looked at.
 */
module Bearer {
  import opened Wrappers
  import opened JsString

  /** `req.headers.authorization?.split(" ")[1] || ""`. */
  function ExtractToken(authorization: Option<string>): (token: string)
    ensures ' ' !in token
    ensures authorization.None? ==> token == ""
    ensures authorization.Some? && ' ' !in authorization.value ==> token == ""
  {
    if authorization.None? then ""
    else
      var parts := Split(authorization.value, ' ');
      if ' ' !in authorization.value then
        SplitNoSeparator(authorization.value, ' ');
        ""
      else if |parts| >= 2 then parts[1]
      else ""
  }

  /** The Authorization header sent to the backend: `Bearer ${token}`. */
  function ForwardedHeader(token: string): (header: string)
    ensures |header| == |token| + 7
  {
    "Bearer " + token
  }

  /**
   * Whatever the first field holds, the token is the second field: the
   * scheme is not checked, so "Basic xyz" gives "xyz".
   */
  lemma TokenIsSecondField(scheme: string, token: string)
    requires ' ' !in scheme && ' ' !in token
    ensures ExtractToken(Some(scheme + " " + token)) == token
  {
    var header := scheme + " " + token;
    assert header == scheme + [' '] + token;
    assert header[|scheme|] == ' ';
    SplitPrefix(scheme, ' ', token);
    SplitNoSeparator(token, ' ');
  }

  /** Anything after a further space is dropped: "Bearer a b" gives "a". */
  lemma LaterFieldsIgnored(scheme: string, token: string, rest: string)
    requires ' ' !in scheme && ' ' !in token
    ensures ExtractToken(Some(scheme + " " + token + " " + rest)) == token
  {
    var header := scheme + " " + token + " " + rest;
    assert header == scheme + [' '] + (token + [' '] + rest);
    assert header[|scheme|] == ' ';
    SplitPrefix(scheme, ' ', token + [' '] + rest);
    SplitPrefix(token, ' ', rest);
  }

  /** The header the backend receives carries the extracted token unchanged. */
  lemma ForwardedTokenRoundTrip(authorization: Option<string>)
    ensures ExtractToken(Some(ForwardedHeader(ExtractToken(authorization)))) == ExtractToken(authorization)
  {
    var token := ExtractToken(authorization);
    assert ForwardedHeader(token) == "Bearer" + " " + token;
    TokenIsSecondField("Bearer", token);
  }

  /** "Bearer abc" gives "abc". */
  lemma BearerExample()
    ensures ExtractToken(Some("Bearer abc")) == "abc"
  {
    assert "Bearer abc" == "Bearer" + " " + "abc";
    TokenIsSecondField("Bearer", "abc");
  }

  /** "Basic xyz" gives "xyz". */
  lemma OtherSchemeExample()
    ensures ExtractToken(Some("Basic xyz")) == "xyz"
  {
    assert "Basic xyz" == "Basic" + " " + "xyz";
    TokenIsSecondField("Basic", "xyz");
  }

  /** "Bearer a b" gives "a". */
  lemma ThirdFieldIgnoredExample()
    ensures ExtractToken(Some("Bearer a b")) == "a"
  {
    assert "Bearer a b" == "Bearer" + " " + "a" + " " + "b";
    LaterFieldsIgnored("Bearer", "a", "b");
  }

  /** Nothing after the space gives the empty token. */
  lemma EmptySecondFieldExample()
    ensures ExtractToken(Some("Bearer ")) == ""
  {
    assert "Bearer " == "Bearer" + " " + "";
    TokenIsSecondField("Bearer", "");
  }
}
