/** The gateway's rate-limit keys: per user (the user id header, else the client's
    address) and per API key. */
module RateLimiter {
  import opened Common
  import opened GatewayFilter

  /** `userKeyResolver`: the X-User-Id header when present, else the remote host
      address, else "unknown". */
  function UserKey(req: Request): (k: string)
    ensures "X-User-Id" in req.headers ==> k == req.headers["X-User-Id"]
    ensures "X-User-Id" !in req.headers && req.remoteHost.Some? ==> k == req.remoteHost.value
    ensures "X-User-Id" !in req.headers && req.remoteHost.None? ==> k == "unknown"
  {
    if "X-User-Id" in req.headers then req.headers["X-User-Id"]
    else if req.remoteHost.Some? then req.remoteHost.value
    else "unknown"
  }

  /** `apiKeyResolver`: "api:" and the X-API-Key header when present, else "anonymous". */
  function ApiKey(req: Request): (k: string)
    ensures "X-API-Key" in req.headers ==> k == "api:" + req.headers["X-API-Key"]
    ensures "X-API-Key" !in req.headers ==> k == "anonymous"
  {
    if "X-API-Key" in req.headers then "api:" + req.headers["X-API-Key"] else "anonymous"
  }

  /** The API-key buckets never meet the anonymous one, and two requests share a bucket
      only when they carry the same key or both carry none. */
  lemma ApiKeysAreSeparate(a: Request, b: Request)
    ensures ApiKey(a) == "anonymous" <==> "X-API-Key" !in a.headers
    ensures ApiKey(a) == ApiKey(b) <==>
      ("X-API-Key" in a.headers <==> "X-API-Key" in b.headers)
      && ("X-API-Key" in a.headers ==> a.headers["X-API-Key"] == b.headers["X-API-Key"])
  {
    if "X-API-Key" in a.headers {
      assert ApiKey(a)[1] == 'p' != "anonymous"[1];
      if "X-API-Key" in b.headers && ApiKey(a) == ApiKey(b) {
        assert a.headers["X-API-Key"] == ApiKey(a)[4..] == ApiKey(b)[4..] == b.headers["X-API-Key"];
      }
    }
    if "X-API-Key" in b.headers {
      assert ApiKey(b)[1] == 'p' != "anonymous"[1];
    }
  }

  /** Behind the JWT filter, a request that presented a verified token is limited under
      its token's subject, whatever X-User-Id header the client sent; a request the
      filter let through without a token is limited under the header the client chose,
      or its address. */
  lemma KeyBehindFilter(req: Request, verify: string -> Option<Claims>)
    requires Filter(req, verify).Forward?
    ensures Filter(req, verify).principal.Some? ==>
      UserKey(Filter(req, verify).request) == Filter(req, verify).principal.value.userId
    ensures Filter(req, verify).principal.None? ==> UserKey(Filter(req, verify).request) == UserKey(req)
  {
  }
}
