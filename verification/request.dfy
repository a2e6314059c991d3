/**
 * The outbound service client: joining the base URL with the endpoint, the
 * session set-up (configured headers, then authentication), and the choice of
 * session call for each HTTP method.
 */
module ServiceClient {
  import opened Wrappers
  import opened Json
  import opened Text

  datatype HttpMethod = GET | POST | PUT | DELETE | PATCH

  /** `ServiceConfig`. Values read from `auth_config` are JSON values; `None` is `JNull`. */
  datatype ServiceConfig = ServiceConfig(
    baseUrl: string,
    endpoint: string,
    verb: HttpMethod,
    headers: Option<map<string, string>>,
    authType: Option<string>,
    authConfig: Option<Document>)

  /**
   * The parts of a `requests.Session` the client touches: `auth`, `headers` and `params`.
   * Header names are compared exactly.
   */
  datatype Session = Session(auth: Option<(Json, Json)>, headers: map<string, Json>, params: map<string, Json>)

  /** The request URL: the base without trailing `/`, one `/`, the endpoint without leading `/`. */
  function FullUrl(base: string, endpoint: string): (r: string)
    ensures var b, e := RStrip(base, '/'), LStrip(endpoint, '/');
      |r| == |b| + 1 + |e| && r[..|b|] == b && r[|b|] == '/' && r[|b| + 1..] == e
  {
    RStrip(base, '/') + "/" + LStrip(endpoint, '/')
  }

  /** Exactly one `/` at the seam: the characters either side of it are not `/`. */
  lemma FullUrlSeam(base: string, endpoint: string)
    ensures var r, n := FullUrl(base, endpoint), |RStrip(base, '/')|;
      r[n] == '/' && (n > 0 ==> r[n - 1] != '/') && (n + 1 < |r| ==> r[n + 1] != '/')
  {
  }

  /** A base without a trailing `/` and an endpoint without a leading `/` are joined with one `/`. */
  lemma FullUrlClean(base: string, endpoint: string)
    requires |base| > 0 && base[|base| - 1] != '/'
    requires |endpoint| > 0 && endpoint[0] != '/'
    ensures FullUrl(base, endpoint) == base + "/" + endpoint
  {
  }

  /** Extra slashes on either side of the seam make no difference. */
  lemma FullUrlIgnoresExtraSlashes(base: string, endpoint: string)
    ensures FullUrl(base + "/", endpoint) == FullUrl(base, endpoint)
    ensures FullUrl(base, "/" + endpoint) == FullUrl(base, endpoint)
  {
    assert (base + "/")[..|base|] == base;
    assert ("/" + endpoint)[1..] == endpoint;
  }

  /** Python truthiness of an optional text: `None` and `''` are false. */
  predicate Given(t: Option<string>) {
    t.Some? && t.value != ""
  }

  /** `auth_config or {}`. */
  function AuthConfigOf(c: ServiceConfig): (r: Document)
    ensures c.authConfig.Some? ==> r == c.authConfig.value
    ensures c.authConfig.None? ==> r == map[]
  {
    c.authConfig.GetOr(map[])
  }

  /** `d.get(k, default)`: the stored value, even `None`, when the key is present. */
  function GetOrDefault(d: Document, k: string, default: Json): (r: Json)
    ensures k in d ==> r == d[k]
    ensures k !in d ==> r == default
  {
    if k in d then d[k] else default
  }

  datatype AuthError =
    | UnsupportedAuthType(authType: string)   // the `ValueError` of an unknown `auth_type`
    | UnrenderedToken                         // a bearer token that is a list or an object
    | KeyNameNotText                          // an `api_key` key name that is not a string

  /** The message of the `ValueError` an unknown authentication type raises. */
  function AuthErrorMessage(e: AuthError): string
    requires e.UnsupportedAuthType?
  {
    "Unsupported authentication type: " + e.authType
  }

  /** `_prepare_authentication(session)`. */
  function PrepareAuthentication(c: ServiceConfig, s: Session): (r: Result<Session, AuthError>)
    ensures !Given(c.authType) ==> r == Success(s)
    ensures r.Failure? && r.error.UnsupportedAuthType? ==>
      Given(c.authType) && r.error.authType == c.authType.value
    ensures Given(c.authType) && c.authType.value !in {"basic", "bearer", "api_key"} ==>
      r == Failure(UnsupportedAuthType(c.authType.value))
    ensures r.Success? ==> r.value.auth == s.auth || (Given(c.authType) && c.authType.value == "basic")
    ensures r.Success? ==> s.headers.Keys <= r.value.headers.Keys && s.params.Keys <= r.value.params.Keys
    ensures c.authType == Some("api_key") ==>
      var config := AuthConfigOf(c);
      var location := GetOrDefault(config, "location", JString("headers"));
      var keyName := GetOrDefault(config, "key_name", JString("X-API-Key"));
      && (location == JString("headers") && keyName.JString? ==>
            r == Success(s.(headers := s.headers[keyName.s := Get(config, "key")])))
      && (location == JString("params") && keyName.JString? ==>
            r == Success(s.(params := s.params[keyName.s := Get(config, "key")])))
      && (location in {JString("headers"), JString("params")} && !keyName.JString? ==> r == Failure(KeyNameNotText))
  {
    if !Given(c.authType) then Success(s)
    else
      var config := AuthConfigOf(c);
      var t := c.authType.value;
      if t == "basic" then
        Success(s.(auth := Some((Get(config, "username"), Get(config, "password")))))
      else if t == "bearer" then
        match PyStr(Get(config, "token"))
        case None => Failure(UnrenderedToken)
        case Some(token) => Success(s.(headers := s.headers["Authorization" := JString("Bearer " + token)]))
      else if t == "api_key" then
        var location := GetOrDefault(config, "location", JString("headers"));
        var keyName := GetOrDefault(config, "key_name", JString("X-API-Key"));
        if location == JString("headers") then
          if keyName.JString? then Success(s.(headers := s.headers[keyName.s := Get(config, "key")]))
          else Failure(KeyNameNotText)
        else if location == JString("params") then
          if keyName.JString? then Success(s.(params := s.params[keyName.s := Get(config, "key")]))
          else Failure(KeyNameNotText)
        else Success(s)
      else
        Failure(UnsupportedAuthType(t))
  }

  /** A missing `auth_config` behaves exactly like an empty one. */
  lemma MissingAuthConfigIsEmpty(c: ServiceConfig, s: Session)
    requires c.authConfig.None?
    ensures PrepareAuthentication(c, s) == PrepareAuthentication(c.(authConfig := Some(map[])), s)
  {
  }

  /** Basic authentication sets the credential pair, `None` for a missing part, and touches nothing else. */
  lemma BasicAuth(c: ServiceConfig, s: Session)
    requires c.authType == Some("basic")
    ensures var config := AuthConfigOf(c);
      PrepareAuthentication(c, s) == Success(s.(auth := Some((Get(config, "username"), Get(config, "password")))))
  {
  }

  /** Bearer authentication sets the `Authorization` header to `Bearer ` and the token's text, `None` when absent. */
  lemma BearerAuth(c: ServiceConfig, s: Session, token: string)
    requires c.authType == Some("bearer")
    requires PyStr(Get(AuthConfigOf(c), "token")) == Some(token)
    ensures PrepareAuthentication(c, s) == Success(s.(headers := s.headers["Authorization" := JString("Bearer " + token)]))
  {
  }

  /** With no token configured, the header reads `Bearer None`. */
  lemma BearerWithoutToken(c: ServiceConfig, s: Session)
    requires c.authType == Some("bearer") && "token" !in AuthConfigOf(c)
    ensures PrepareAuthentication(c, s) == Success(s.(headers := s.headers["Authorization" := JString("Bearer None")]))
  {
    assert Get(AuthConfigOf(c), "token") == JNull;
    assert PyStr(JNull) == Some("None");
    assert "Bearer " + "None" == "Bearer None";
  }

  /** An API key with neither location nor key name configured goes into the `X-API-Key` header. */
  lemma ApiKeyDefaults(c: ServiceConfig, s: Session)
    requires c.authType == Some("api_key")
    requires "location" !in AuthConfigOf(c) && "key_name" !in AuthConfigOf(c)
    ensures PrepareAuthentication(c, s) == Success(s.(headers := s.headers["X-API-Key" := Get(AuthConfigOf(c), "key")]))
  {
  }

  /**
   * An API key placed under a text key name in `headers` or in `params` sets exactly that entry of
   * that map to the configured key (`None` when absent), and leaves the rest of the session alone.
   */
  lemma ApiKeyAt(c: ServiceConfig, s: Session, location: string, k: string)
    requires c.authType == Some("api_key")
    requires location == "headers" || location == "params"
    requires GetOrDefault(AuthConfigOf(c), "location", JString("headers")) == JString(location)
    requires GetOrDefault(AuthConfigOf(c), "key_name", JString("X-API-Key")) == JString(k)
    ensures var key := Get(AuthConfigOf(c), "key");
      var r := PrepareAuthentication(c, s);
      && r.Success?
      && r.value.auth == s.auth
      && (location == "headers" ==> r.value.headers == s.headers[k := key] && r.value.params == s.params)
      && (location == "params" ==> r.value.params == s.params[k := key] && r.value.headers == s.headers)
  {
  }

  /** An API key at a location other than `headers` or `params` changes nothing. */
  lemma ApiKeyElsewhere(c: ServiceConfig, s: Session)
    requires c.authType == Some("api_key")
    requires var l := GetOrDefault(AuthConfigOf(c), "location", JString("headers"));
      l != JString("headers") && l != JString("params")
    ensures PrepareAuthentication(c, s) == Success(s)
  {
  }

  /** The session after `request` has set it up: configured headers first, then authentication. */
  function PrepareSession(c: ServiceConfig, initial: Session): (r: Result<Session, AuthError>)
    ensures r.Success? ==> initial.headers.Keys <= r.value.headers.Keys && initial.params.Keys <= r.value.params.Keys
    ensures r.Success? && c.headers.Some? ==> c.headers.value.Keys <= r.value.headers.Keys
    ensures !Given(c.authType) ==>
      && r.Success? && r.value.auth == initial.auth && r.value.params == initial.params
      && (forall h :: h in initial.headers && (c.headers.None? || h !in c.headers.value) ==>
            r.value.headers[h] == initial.headers[h])
  {
    var configured := c.headers.GetOr(map[]);
    var headers := initial.headers + map h | h in configured :: JString(configured[h]);
    PrepareAuthentication(c, initial.(headers := headers))
  }

  /** Authentication writes after the configured headers, so a bearer token wins over a configured `Authorization` header. */
  lemma AuthOverridesConfiguredHeader(c: ServiceConfig, initial: Session, token: string)
    requires c.authType == Some("bearer")
    requires PyStr(Get(AuthConfigOf(c), "token")) == Some(token)
    ensures var r := PrepareSession(c, initial);
      r.Success? && r.value.headers["Authorization"] == JString("Bearer " + token)
  {
  }

  /** Without authentication, every configured header reaches the session with its configured value. */
  lemma ConfiguredHeadersApplied(c: ServiceConfig, initial: Session)
    requires !Given(c.authType) && c.headers.Some?
    ensures var r := PrepareSession(c, initial);
      r.Success? && forall h :: h in c.headers.value ==> h in r.value.headers && r.value.headers[h] == JString(c.headers.value[h])
  {
  }

  /** The session call used for each method. */
  datatype SessionCall = SessionGet | SessionPost | SessionPut | SessionDelete | SessionPatch

  /** `method_map`. */
  const MethodMap: map<HttpMethod, SessionCall> :=
    map[GET := SessionGet, POST := SessionPost, PUT := SessionPut, DELETE := SessionDelete, PATCH := SessionPatch]

  /** Every member of the method enumeration has an entry in `method_map`. */
  lemma MethodMapTotal(m: HttpMethod)
    ensures m in MethodMap
  {
    match m
    case GET =>
    case POST =>
    case PUT =>
    case DELETE =>
    case PATCH =>
  }

  /** `method_map.get(method)`, or the `ValueError` for a method it lacks: never raised, since the map is total. */
  function CallFor(m: HttpMethod): (r: Result<SessionCall, string>)
    ensures r.Success?
  {
    MethodMapTotal(m);
    if m in MethodMap then Success(MethodMap[m]) else Failure("Unsupported HTTP method")
  }

  /** Distinct methods use distinct session calls. */
  lemma CallForInjective(m: HttpMethod, n: HttpMethod)
    requires CallFor(m) == CallFor(n)
    ensures m == n
  {
  }
}
