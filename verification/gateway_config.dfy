/** The JWT pre-check filter of the API gateway: requests to public paths
    pass untouched, every other request must carry a bearer token, which
    the gateway only checks for presence and leaves to the services to
    validate. */
module GatewayConfig {
  import opened Wrappers
  import opened Lang

  const BearerPrefix := "Bearer "
  const MissingToken := "JWT токен отсутствует"

  /** The path fragments that mark a public endpoint for this filter. */
  const PublicFragments: seq<string> := ["/user/auth", "/user/register", "/swagger-ui", "/v3/api-docs", "/h2-console"]

  /** `extractToken`: the text after "Bearer " of the first Authorization
      header value, if it has that prefix. */
  function ExtractToken(header: Option<string>): (r: Option<string>)
    ensures r.Some? <==> header.Some? && StartsWith(header.value, BearerPrefix)
    ensures r.Some? ==> header.value == BearerPrefix + r.value
  {
    if header.None? || !StartsWith(header.value, BearerPrefix) then None
    else
      var token := header.value[|BearerPrefix|..];
      assert header.value == header.value[..|BearerPrefix|] + token;
      Some(token)
  }

  /** Every token is recovered from the header that carries it. */
  lemma ExtractTokenRoundTrip(token: string)
    ensures ExtractToken(Some(BearerPrefix + token)) == Some(token)
  {
    assert (BearerPrefix + token)[..|BearerPrefix|] == BearerPrefix;
  }

  /** `isPublicEndpoint`: the path contains one of the public fragments. */
  predicate IsPublicEndpoint(path: string) {
    exists i :: 0 <= i < |PublicFragments| && Contains(path, PublicFragments[i])
  }

  /** What the filter does with a request. */
  datatype Decision = Pass | Reject(status: int, message: string)

  /** The filter: public paths and requests with a bearer token pass; the
      rest are answered with 401. The token itself is not checked here. */
  function JwtValidation(path: string, authorization: Option<string>): (d: Decision)
    ensures d.Pass? <==> IsPublicEndpoint(path) || ExtractToken(authorization).Some?
    ensures d.Reject? ==> d == Reject(401, MissingToken)
  {
    if IsPublicEndpoint(path) then Pass
    else if ExtractToken(authorization).None? then Reject(401, MissingToken)
    else Pass
  }

  /** Any bearer header passes, however malformed the token after it. */
  lemma AnyBearerPasses(path: string, token: string)
    ensures JwtValidation(path, Some(BearerPrefix + token)) == Pass
  {
    ExtractTokenRoundTrip(token);
  }

  /** A path under a public prefix is public whatever follows it. */
  lemma PublicUnderPrefix(before: string, i: int, after: string)
    requires 0 <= i < |PublicFragments|
    ensures IsPublicEndpoint(before + PublicFragments[i] + after)
  {
    ContainsInfix(before, PublicFragments[i], after);
  }
}
