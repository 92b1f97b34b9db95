/**
 * The shared HTTP client's request interceptor: it reads the stored session
 * and, when that holds a token, sends it as a bearer credential
 * (section 2.1 of RFC 6750, "Authorization Request Header Field").
 */
module HttpClient {
  import opened Outcomes

  const Authorization := "Authorization"
  const BearerPrefix := "Bearer "

  /** The session object kept under the `user` key of local storage. */
  datatype StoredUser = StoredUser(token: Option<string>)

  /** The stored session's token, when there is one and it is non-empty (truthy). */
  function SessionToken(stored: Option<StoredUser>): Option<string>
  {
    if stored.Some? && stored.value.token.Some? && stored.value.token.value != ""
    then stored.value.token
    else None
  }

  /** The `Authorization` value for a token: `Bearer <token>`. */
  function BearerCredentials(token: string): string
  {
    BearerPrefix + token
  }

  /** Reads the token back out of a bearer `Authorization` value. */
  function ParseBearer(value: string): Option<string>
  {
    if |BearerPrefix| <= |value| && value[..|BearerPrefix|] == BearerPrefix
    then Some(value[|BearerPrefix|..])
    else None
  }

  /** A bearer credential carries exactly the token it was built from. */
  lemma BearerRoundTrip(token: string)
    ensures ParseBearer(BearerCredentials(token)) == Some(token)
  {
    assert BearerCredentials(token)[..|BearerPrefix|] == BearerPrefix;
    assert BearerCredentials(token)[|BearerPrefix|..] == token;
  }

  /**
   * The headers after interception. With a session token, `Authorization`
   * holds the bearer credential for it, overwriting any earlier value;
   * without one the headers are returned as they were. No other header is
   * added, removed or changed.
   */
  function WithAuthorization(headers: map<string, string>, stored: Option<StoredUser>): (r: map<string, string>)
    ensures forall name :: name != Authorization ==> (name in r <==> name in headers)
    ensures forall name :: name != Authorization && name in r ==> r[name] == headers[name]
    ensures SessionToken(stored).Some? ==>
      && Authorization in r
      && r[Authorization] == BearerPrefix + SessionToken(stored).value
      && ParseBearer(r[Authorization]) == SessionToken(stored)
    ensures SessionToken(stored).None? ==> r == headers
  {
    match SessionToken(stored)
    case Some(token) =>
      BearerRoundTrip(token);
      headers[Authorization := BearerCredentials(token)]
    case None => headers
  }

  /** The request configuration object the interceptor receives. */
  class RequestConfig {
    var url: string
    /** The HTTP method (`config.method`). */
    var verb: string
    var headers: map<string, string>

    constructor (url: string, verb: string, headers: map<string, string>)
      ensures this.url == url && this.verb == verb && this.headers == headers
    {
      this.url := url;
      this.verb := verb;
      this.headers := headers;
    }
  }

  /**
   * The request interceptor: sets the `Authorization` header of `config` in
   * place when the stored session has a token, and hands back the same
   * object.
   */
  method Intercept(config: RequestConfig, stored: Option<StoredUser>) returns (result: RequestConfig)
    modifies config`headers
    ensures result == config
    ensures config.headers == WithAuthorization(old(config.headers), stored)
    ensures config.url == old(config.url) && config.verb == old(config.verb)
  {
    var token := SessionToken(stored);
    if token.Some? {
      config.headers := config.headers[Authorization := BearerPrefix + token.value];
    }
    result := config;
  }
}
