/** The gateway's JWT filter: which paths skip authentication, how the bearer token is
    taken from the Authorization header, and what a valid token adds to the request that
    is forwarded (the user id and roles headers and the granted authorities). Verifying
    the token's signature is a parameter. */
module GatewayFilter {
  import opened Common

  /** A request as the filter sees it: its path, the first value of each header, and
      the remote host address when there is one. */
  datatype Request = Request(path: string, headers: map<string, string>, remoteHost: Option<string>)

  /** What a verified token says: the subject and the "roles" claim, which may be absent. */
  datatype Claims = Claims(subject: string, roles: Option<seq<string>>)

  /** The authentication placed in the security context. */
  datatype Principal = Principal(userId: string, authorities: seq<string>)

  /** The filter's decision: forward a request down the chain (with the principal when a
      token was verified), answer 401 without calling the chain, or end the exchange with
      an exception the filter does not catch (which the server answers with a 500). */
  datatype Outcome = Forward(request: Request, principal: Option<Principal>) | Unauthorized | Failed(error: Error)

  const BearerPrefix: string := "Bearer "

  /** The paths that bypass authentication by prefix (the ninth test, "/api-docs"
      anywhere in the path, is a substring test). */
  const PublicPrefixes: seq<string> := [
    "/api/v1/auth/login", "/api/v1/auth/register", "/api/v1/auth/refresh", "/api/v1/auth/forgot-password",
    "/actuator/health", "/actuator/info", "/swagger-ui", "/v3/api-docs", "/fallback"]

  /** `isPublicPath` */
  predicate IsPublicPath(path: string)
  {
    (exists i | 0 <= i < |PublicPrefixes| :: StartsWith(path, PublicPrefixes[i])) || Contains(path, "/api-docs")
  }

  lemma StartsWithExtends(s: string, prefix: string, suffix: string)
    requires StartsWith(s, prefix)
    ensures StartsWith(s + suffix, prefix)
  {
    assert (s + suffix)[..|prefix|] == s[..|prefix|];
  }

  lemma ContainsExtends(s: string, infix: string, suffix: string)
    requires Contains(s, infix)
    ensures Contains(s + suffix, infix)
  {
    var i :| 0 <= i <= |s| - |infix| && InfixAt(s, infix, i);
    assert (s + suffix)[i..i + |infix|] == s[i..i + |infix|];
    assert InfixAt(s + suffix, infix, i);
  }

  /** Matching is by prefix and by substring, so anything appended to a public path is
      public too. */
  lemma PublicPathsExtend(path: string, suffix: string)
    requires IsPublicPath(path)
    ensures IsPublicPath(path + suffix)
  {
    if exists i | 0 <= i < |PublicPrefixes| :: StartsWith(path, PublicPrefixes[i]) {
      var i :| 0 <= i < |PublicPrefixes| && StartsWith(path, PublicPrefixes[i]);
      StartsWithExtends(path, PublicPrefixes[i], suffix);
    } else {
      ContainsExtends(path, "/api-docs", suffix);
    }
  }

  /** Concrete consequences: a path that merely begins with the login path is public, a
      docs path under any service is public, and the job API is not. */
  lemma PublicPathExamples()
    ensures IsPublicPath("/api/v1/auth/loginX")
    ensures IsPublicPath("/pdf/api-docs")
    ensures !IsPublicPath("/api/v1/jobs")
  {
    assert StartsWith("/api/v1/auth/loginX", PublicPrefixes[0]);
    assert InfixAt("/pdf/api-docs", "/api-docs", 4);
    var p := "/api/v1/jobs";
    forall i | 0 <= i < |PublicPrefixes|
      ensures !StartsWith(p, PublicPrefixes[i])
    {
      var q := PublicPrefixes[i];
      if |q| <= |p| {
        assert (p[..|q|][1] == p[1] && q[1] != p[1]) || (p[..|q|][2] == p[2] && q[2] != p[2]);
      }
    }
    forall i | 0 <= i <= |p| - 9
      ensures !InfixAt(p, "/api-docs", i)
    {
      assert p[i..i + 9][4 - i] == p[4] != "/api-docs"[4 - i];
    }
  }

  /** The token after the 7-character "Bearer " prefix. */
  function BearerToken(header: string): (token: string)
    requires StartsWith(header, BearerPrefix)
    ensures BearerPrefix + token == header
    ensures |token| == |header| - 7
  {
    header[|BearerPrefix|..]
  }

  /** `Character.isWhitespace` */
  predicate JavaWhitespace(c: char)
  {
    c == ' ' || '\t' <= c <= '\r' || '\U{001C}' <= c <= '\U{001F}' || c == '\U{1680}'
    || ('\U{2000}' <= c <= '\U{200A}' && c != '\U{2007}') || c == '\U{2028}' || c == '\U{2029}'
    || c == '\U{205F}' || c == '\U{3000}'
  }

  /** The parser's `Assert.hasText`: some character is not whitespace. */
  predicate HasText(s: string)
  {
    exists i :: 0 <= i < |s| && !JavaWhitespace(s[i])
  }

  /** What the JWT parser throws for a token without text: an `IllegalArgumentException`,
      which is not a `JwtException`. */
  const BlankTokenError := Error(IllegalArgument, Some("JWT String cannot be null or empty."))

  /** Taking the token back off a header built from it gives the token. */
  lemma BearerRoundTrip(token: string)
    ensures StartsWith(BearerPrefix + token, BearerPrefix)
    ensures BearerToken(BearerPrefix + token) == token
  {
    assert (BearerPrefix + token)[..|BearerPrefix|] == BearerPrefix;
  }

  /** `String.join`: the parts with the separator between neighbours. */
  function Join(sep: string, parts: seq<string>): string
  {
    if parts == [] then ""
    else if |parts| == 1 then parts[0]
    else parts[0] + sep + Join(sep, parts[1..])
  }

  /** The first position of `c` in `s`. */
  function IndexOf(s: string, c: char): (i: nat)
    requires c in s
    ensures i < |s| && s[i] == c && c !in s[..i]
  {
    if s[0] == c then 0 else IndexOf(s[1..], c) + 1
  }

  /** Splitting on ',' (every part kept, empty ones too). */
  function SplitComma(s: string): seq<string>
    decreases |s|
  {
    if ',' in s then
      var i := IndexOf(s, ',');
      [s[..i]] + SplitComma(s[i + 1..])
    else [s]
  }

  lemma FirstCommaAfter(x: string, y: string)
    requires ',' !in x
    ensures ',' in x + "," + y && IndexOf(x + "," + y, ',') == |x|
  {
    var s := x + "," + y;
    assert s[|x|] == ',';
    assert forall j :: 0 <= j < |x| ==> s[j] == x[j];
    assert forall j :: |x| < j <= |s| ==> s[..j][|x|] == ',';
  }

  /** The roles header can be split back into the roles when no role holds a comma. */
  lemma {:induction false} JoinedRolesSplitBack(roles: seq<string>)
    requires roles != []
    requires forall i :: 0 <= i < |roles| ==> ',' !in roles[i]
    ensures SplitComma(Join(",", roles)) == roles
    decreases |roles|
  {
    if |roles| > 1 {
      var rest := Join(",", roles[1..]);
      FirstCommaAfter(roles[0], rest);
      var s := roles[0] + "," + rest;
      assert s[..|roles[0]|] == roles[0];
      assert s[|roles[0]| + 1..] == rest;
      JoinedRolesSplitBack(roles[1..]);
    }
  }

  /** One "ROLE_"-prefixed authority per role, in order. */
  function Authorities(roles: seq<string>): (a: seq<string>)
    ensures |a| == |roles|
    ensures forall i :: 0 <= i < |roles| ==> a[i] == "ROLE_" + roles[i]
  {
    if roles == [] then [] else ["ROLE_" + roles[0]] + Authorities(roles[1..])
  }

  /** The roles claim, an absent one read as no roles. */
  function RolesOf(c: Claims): seq<string>
  {
    if c.roles.Some? then c.roles.value else []
  }

  /** `filter`: public paths and requests without a bearer header go on untouched (the
      security configuration decides later whether they need a login); a blank bearer
      token makes the parser throw past the filter's `JwtException` handler; a token that
      fails verification ends in 401; a verified one sets the user id and roles headers,
      replacing any the client sent, and installs the principal. */
  function Filter(req: Request, verify: string -> Option<Claims>): (o: Outcome)
    ensures IsPublicPath(req.path) ==> o == Forward(req, None)
    ensures !IsPublicPath(req.path) && ("Authorization" !in req.headers || !StartsWith(req.headers["Authorization"], BearerPrefix))
      ==> o == Forward(req, None)
    ensures o.Failed? <==>
      !IsPublicPath(req.path) && "Authorization" in req.headers && StartsWith(req.headers["Authorization"], BearerPrefix)
      && !HasText(BearerToken(req.headers["Authorization"]))
    ensures o.Failed? ==> o.error == BlankTokenError
    ensures o.Unauthorized? <==>
      !IsPublicPath(req.path) && "Authorization" in req.headers && StartsWith(req.headers["Authorization"], BearerPrefix)
      && HasText(BearerToken(req.headers["Authorization"]))
      && verify(BearerToken(req.headers["Authorization"])).None?
    ensures o.Forward? && o.principal.Some? ==>
      && "Authorization" in req.headers && StartsWith(req.headers["Authorization"], BearerPrefix)
      && HasText(BearerToken(req.headers["Authorization"]))
      && var c := verify(BearerToken(req.headers["Authorization"]));
      && c.Some?
      && o.principal.value == Principal(c.value.subject, Authorities(RolesOf(c.value)))
      && o.request.path == req.path && o.request.remoteHost == req.remoteHost
      && o.request.headers == req.headers["X-User-Id" := c.value.subject]["X-User-Roles" := Join(",", RolesOf(c.value))]
    ensures o.Forward? && o.principal.None? ==> o.request == req
  {
    if IsPublicPath(req.path) then Forward(req, None)
    else if "Authorization" !in req.headers || !StartsWith(req.headers["Authorization"], BearerPrefix) then
      Forward(req, None)
    else if !HasText(BearerToken(req.headers["Authorization"])) then Failed(BlankTokenError)
    else
      match verify(BearerToken(req.headers["Authorization"]))
      case None => Unauthorized
      case Some(c) =>
        var roles := RolesOf(c);
        var headers := req.headers["X-User-Id" := c.subject]["X-User-Roles" := Join(",", roles)];
        Forward(req.(headers := headers), Some(Principal(c.subject, Authorities(roles))))
  }

  /** "Bearer " with nothing after it is neither forwarded nor answered with 401: the
      exchange fails whatever the verifier would say. */
  lemma EmptyBearerFails(path: string, verify: string -> Option<Claims>)
    requires !IsPublicPath(path)
    ensures Filter(Request(path, map["Authorization" := BearerPrefix], None), verify) == Failed(BlankTokenError)
  {
    BearerRoundTrip("");
  }

  /** A request forwarded with a principal carries the principal's user id in its
      X-User-Id header, whatever the client put there; the principal's authorities are
      its roles header's roles, each with "ROLE_" in front. */
  lemma ForwardedIdentityIsVerified(req: Request, verify: string -> Option<Claims>)
    requires Filter(req, verify).Forward? && Filter(req, verify).principal.Some?
    ensures
      var o := Filter(req, verify);
      && o.request.headers["X-User-Id"] == o.principal.value.userId
      && "X-User-Roles" in o.request.headers
      && |o.principal.value.authorities| == |RolesOf(verify(BearerToken(req.headers["Authorization"])).value)|
  {
  }
}
