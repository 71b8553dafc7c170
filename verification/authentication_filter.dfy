/** The authentication filter of the API gateway: non-public requests need
    a valid bearer token, and the user it names is passed on to the
    services in two headers. */
module AuthenticationFilter {
  import opened Wrappers
  import opened Lang
  import GatewayConfig

  const MissingHeader := "Authorization header is missing"
  const InvalidHeader := "Invalid Authorization header"
  const InvalidToken := "Invalid or expired token"
  const ValidationFailed := "Token validation failed"

  /** This filter's public fragments: the JWT filter's, and the actuator. */
  const PublicFragments: seq<string> := ["/user/register", "/user/auth", "/h2-console", "/swagger-ui", "/v3/api-docs", "/actuator"]

  /** `isPublicEndpoint` */
  predicate IsPublicEndpoint(path: string) {
    exists i :: 0 <= i < |PublicFragments| && Contains(path, PublicFragments[i])
  }

  /** What the token library says of a token: it does not validate, reading
      it throws, or it is valid and names a user and roles. */
  datatype TokenCheck = Invalid | Failed | Valid(username: string, roles: seq<string>)

  /** The filter's verdict: forward the request (with the identity headers
      when a user was authenticated) or answer with a status. */
  datatype Verdict =
    | Forward(identity: Option<(string, string)>)
    | Refuse(status: int, message: string)

  /** The filter. `authorization` is the header's list of values, absent
      when the header is missing; `verify` stands for the token library. */
  function Filter(path: string, authorization: Option<seq<string>>, verify: string -> TokenCheck): (v: Verdict)
    ensures IsPublicEndpoint(path) ==> v == Forward(None)
    ensures !IsPublicEndpoint(path) && authorization.None? ==> v == Refuse(401, MissingHeader)
    ensures !IsPublicEndpoint(path) && authorization.Some? ==>
      var first := if |authorization.value| > 0 then Some(authorization.value[0]) else None;
      match GatewayConfig.ExtractToken(first)
      case None => v == Refuse(401, InvalidHeader)
      case Some(token) =>
        match verify(token)
        case Invalid => v == Refuse(401, InvalidToken)
        case Failed => v == Refuse(401, ValidationFailed)
        case Valid(user, roles) => v == Forward(Some((user, Join(roles, ","))))
    ensures v.Refuse? ==> v.status == 401
  {
    if IsPublicEndpoint(path) then Forward(None)
    else if authorization.None? then Refuse(401, MissingHeader)
    else
      var first := if |authorization.value| > 0 then Some(authorization.value[0]) else None;
      match GatewayConfig.ExtractToken(first)
      case None => Refuse(401, InvalidHeader)
      case Some(token) =>
        match verify(token)
        case Invalid => Refuse(401, InvalidToken)
        case Failed => Refuse(401, ValidationFailed)
        case Valid(user, roles) => Forward(Some((user, Join(roles, ","))))
  }

  /** Every path public to the JWT filter is public here; the actuator is
      public only here. */
  lemma PublicPathsNest(path: string)
    ensures GatewayConfig.IsPublicEndpoint(path) ==> IsPublicEndpoint(path)
    ensures IsPublicEndpoint(path) && !GatewayConfig.IsPublicEndpoint(path) ==> Contains(path, "/actuator")
  {
    if GatewayConfig.IsPublicEndpoint(path) {
      var i :| 0 <= i < |GatewayConfig.PublicFragments| && Contains(path, GatewayConfig.PublicFragments[i]);
      var j := [1, 0, 3, 4, 2][i];
      assert PublicFragments[j] == GatewayConfig.PublicFragments[i];
    }
    forall j | 0 <= j < 5 && Contains(path, PublicFragments[j])
      ensures GatewayConfig.IsPublicEndpoint(path)
    {
      var i := [1, 0, 4, 2, 3][j];
      assert GatewayConfig.PublicFragments[i] == PublicFragments[j];
    }
  }

  /** A request this filter forwards with an identity also passes the JWT
      pre-check. */
  lemma AuthenticatedPassesJwtCheck(path: string, values: seq<string>, verify: string -> TokenCheck)
    requires Filter(path, Some(values), verify).Forward?
    requires Filter(path, Some(values), verify).identity.Some?
    ensures GatewayConfig.JwtValidation(path, Some(values[0])) == GatewayConfig.Pass
  {
  }

  /** The roles header reads back as the token's roles when split at the
      commas, provided there is a role and no role contains a comma. */
  lemma RolesHeaderRoundTrip(path: string, values: seq<string>, verify: string -> TokenCheck)
    requires Filter(path, Some(values), verify).Forward?
    requires Filter(path, Some(values), verify).identity.Some?
    ensures var token := GatewayConfig.ExtractToken(Some(values[0])).value;
      var roles := verify(token).roles;
      |roles| > 0 && (forall i :: 0 <= i < |roles| ==> ',' !in roles[i]) ==>
        Split(Filter(path, Some(values), verify).identity.value.1, ',') == roles
  {
    var token := GatewayConfig.ExtractToken(Some(values[0])).value;
    var roles := verify(token).roles;
    if |roles| > 0 && (forall i :: 0 <= i < |roles| ==> ',' !in roles[i]) {
      SplitJoin(roles, ',');
    }
  }
}
